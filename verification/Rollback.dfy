/** Defragmentation, and why undoing a committed update never runs out of pages: every table the
    undo has to create again is one that still exists or that defragmentation just freed. */
module Rollback {
  import opened Common
  import opened Geometry
  import opened Entries

  // ---- Defragmentation -----------------------------------------------------------------------

  /** What `PageTableEntry::defrag` returns: the attributes of the block the entry became. */
  ghost function DefragResult(e: Entry, level: nat): Result<Raw>
    requires WF(e, level)
    decreases level, 0
  {
    if IsBlock(e, level) then Ok(e.raw)
    else if e.Leaf? then Err
    else Merged(KidsResult(e.kids, level - 1), level)
  }

  /** The common result of all entries of a table, if there is one. */
  ghost function KidsResult(ks: seq<Entry>, level: nat): Result<Raw>
    requires WFs(ks, level)
    decreases level, 1
  {
    if ks != [] && forall i | 0 <= i < |ks| :: DefragResult(ks[i], level) == DefragResult(ks[0], level)
    then DefragResult(ks[0], level)
    else Err
  }

  /** What a table at `level` turns into when all its entries gave the result `r`. */
  function Merged(r: Result<Raw>, level: nat): Result<Raw> {
    if r.Err? then Err
    else if !IsPresent(Leaf(r.value)) then Ok(None)
    else if !BlockAllowed(level) then Err
    else r
  }

  ghost function Defragged(e: Entry, level: nat): Entry
    requires WF(e, level)
    decreases level, 0
  {
    if e.Leaf? then e
    else
      match Merged(KidsResult(e.kids, level - 1), level)
      case Ok(raw) => Leaf(raw)
      case Err => Table(e.page, DefragAll(e.kids, level - 1))
  }

  ghost function DefragAll(ks: seq<Entry>, level: nat): (ds: seq<Entry>)
    requires WFs(ks, level)
    ensures |ds| == |ks|
    ensures forall i {:trigger ds[i]} | 0 <= i < |ks| :: ds[i] == Defragged(ks[i], level)
    decreases level, 1
  {
    seq(|ks|, i requires 0 <= i < |ks| => Defragged(ks[i], level))
  }

  lemma DefragOk(e: Entry, level: nat)
    requires WF(e, level) && DefragResult(e, level).Ok?
    ensures Defragged(e, level) == Leaf(DefragResult(e, level).value)
  {
  }

  lemma {:induction false} DefragWF(e: Entry, level: nat)
    requires WF(e, level)
    ensures WF(Defragged(e, level), level)
    decreases level
  {
    if e.Table? && Defragged(e, level).Table? {
      forall i | 0 <= i < |e.kids| ensures WF(Defragged(e.kids[i], level - 1), level - 1) {
        DefragWF(e.kids[i], level - 1);
      }
    }
  }

  /** Merging subtables into blocks preserves the meaning at every level. */
  lemma {:induction false} DefragPreservesView(e: Entry, level: nat, lo: nat)
    requires WF(e, level)
    ensures WF(Defragged(e, level), level)
    ensures SameView(e, Defragged(e, level), level, lo)
    decreases level
  {
    DefragWF(e, level);
    if e.Table? {
      forall a | lo <= a < lo + Size(level)
        ensures Norm(At(Defragged(e, level), level, lo, a)) == Norm(At(e, level, lo, a))
      {
        var s := Size(level - 1);
        TableSpan(lo, level - 1);
        EntryOf(lo, 512, s, a);
        var i := Which(lo, s, a);
        DefragPreservesView(e.kids[i], level - 1, EntryLo(lo, i, s));
        DefragKidView(e, level, lo, i, a);
      }
    }
  }

  lemma DefragKidView(e: Entry, level: nat, lo: nat, i: nat, a: nat)
    requires WF(e, level) && WF(Defragged(e, level), level) && e.Table? && i < PTE_PER_PAGE
    requires EntryLo(lo, i, Size(level - 1)) <= a < EntryLo(lo, i, Size(level - 1)) + Size(level - 1)
    requires lo <= a < lo + Size(level)
    requires WF(Defragged(e.kids[i], level - 1), level - 1)
    requires SameView(e.kids[i], Defragged(e.kids[i], level - 1), level - 1, EntryLo(lo, i, Size(level - 1)))
    ensures Norm(At(Defragged(e, level), level, lo, a)) == Norm(At(e, level, lo, a))
  {
    var kid := e.kids[i];
    KidAt(e.kids, level - 1, lo, i, a);
    DefragCases(e, level, i);
    hide Defragged, DefragAll, DefragResult, KidsResult;
    if Defragged(e, level).Table? {
      KidAt(DefragAll(e.kids, level - 1), level - 1, lo, i, a);
    }
  }

  /** Either the table stays, or every entry became the same leaf. */
  lemma DefragCases(e: Entry, level: nat, i: nat)
    requires WF(e, level) && e.Table? && i < PTE_PER_PAGE
    ensures var d, k := Defragged(e, level), Defragged(e.kids[i], level - 1);
            || d == Table(e.page, DefragAll(e.kids, level - 1))
            || (d.Leaf? && k.Leaf? && Norm(d.raw) == Norm(k.raw))
  {
    if Defragged(e, level).Leaf? {
      assert DefragResult(e.kids[i], level - 1) == KidsResult(e.kids, level - 1);
      DefragOk(e.kids[i], level - 1);
    }
  }

  // ---- Tables along the boundary of a range --------------------------------------------------

  /** A map of `[begin, end)` cannot write this entry as one descriptor. */
  predicate Crosses(begin: nat, end: nat, lo: nat, level: nat) {
    && level > 0 && begin < end && lo < end && begin < lo + Size(level)
    && !(begin <= lo && lo + Size(level) <= end && BlockAllowed(level))
  }

  /** Every entry the range crosses is a table. */
  ghost predicate Solid(e: Entry, level: nat, lo: nat, begin: nat, end: nat)
    decreases level
  {
    Crosses(begin, end, lo, level) ==>
      && e.Table? && |e.kids| == PTE_PER_PAGE
      && forall i | 0 <= i < |e.kids| ::
           Solid(e.kids[i], level - 1, EntryLo(lo, i, Size(level - 1)), begin, end)
  }

  lemma {:induction false} SplitKeepsSolid(e: Entry, e': Entry, level: nat, lo: nat, begin: nat, end: nat)
    requires SplitOf(e, e', level) && Solid(e, level, lo, begin, end)
    ensures Solid(e', level, lo, begin, end)
    decreases level
  {
    if e != e' && Crosses(begin, end, lo, level) {
      forall i | 0 <= i < |e'.kids|
        ensures Solid(e'.kids[i], level - 1, EntryLo(lo, i, Size(level - 1)), begin, end)
      {
        SplitKeepsSolid(e.kids[i], e'.kids[i], level - 1, EntryLo(lo, i, Size(level - 1)), begin, end);
      }
    }
  }

  /** Committing a map keeps the boundary tables of its own range and of every disjoint range. */
  lemma {:induction false} CommitKeepsSolid(e: Entry, level: nat, lo: nat, op: Op, begin: nat, end: nat)
    requires Solid(e, level, lo, begin, end) && !op.unmap
    requires (op.begin == begin && op.end == end) || op.end <= begin || end <= op.begin
    ensures Solid(Commit(e, level, lo, op), level, lo, begin, end)
    decreases level
  {
    if Crosses(begin, end, lo, level) && Overlaps(op, lo, level) && !Whole(op, lo, level) {
      var ks := CommitKids(e.kids, level - 1, lo, op);
      forall i | 0 <= i < |ks|
        ensures Solid(ks[i], level - 1, EntryLo(lo, i, Size(level - 1)), begin, end)
      {
        CommitKeepsSolid(e.kids[i], level - 1, EntryLo(lo, i, Size(level - 1)), op, begin, end);
      }
    }
  }

  /** A range prepared for attributes it does not have yet has all its boundary tables. */
  lemma {:induction false} PreparedIsSolid(e: Entry, level: nat, lo: nat, op: Op, was: Attrs)
    requires WF(e, level) && WFOp(op) && !op.unmap && Need(e, level, lo, op) == 0
    requires was != op.attrs
    requires UniformIn(e, level, lo, op.begin, op.end, was)
    ensures Solid(e, level, lo, op.begin, op.end)
    decreases level
  {
    if Crosses(op.begin, op.end, lo, level) {
      assert Norm(At(e, level, lo, Max(lo, op.begin))) == Some(was);
      PreparedPartial(e, level, lo, op);
      forall i | 0 <= i < |e.kids|
        ensures Solid(e.kids[i], level - 1, EntryLo(lo, i, Size(level - 1)), op.begin, op.end)
      {
        NeedFromZero(e.kids, level - 1, lo, op, 0, i);
        UniformKid(e, level, lo, op.begin, op.end, was, i);
        PreparedIsSolid(e.kids[i], level - 1, EntryLo(lo, i, Size(level - 1)), op, was);
      }
    }
  }

  /** Every address of the range below this entry means `attrs`. */
  ghost predicate UniformIn(e: Entry, level: nat, lo: nat, begin: nat, end: nat, attrs: Attrs)
    requires WF(e, level)
  {
    forall a | lo <= a < lo + Size(level) && begin <= a < end :: Norm(At(e, level, lo, a)) == Some(attrs)
  }

  lemma UniformKid(e: Entry, level: nat, lo: nat, begin: nat, end: nat, attrs: Attrs, i: nat)
    requires WF(e, level) && e.Table? && i < PTE_PER_PAGE
    requires UniformIn(e, level, lo, begin, end, attrs)
    ensures UniformIn(e.kids[i], level - 1, EntryLo(lo, i, Size(level - 1)), begin, end, attrs)
  {
    var below, from := level - 1, EntryLo(lo, i, Size(level - 1));
    forall a | from <= a < from + Size(below) && begin <= a < end
      ensures Norm(At(e.kids[i], below, from, a)) == Some(attrs)
    {
      KidsView(e, level, lo, i, a);
    }
  }

  /** Mapping a range with the attributes it already has needs no table at all. */
  lemma {:induction false} UniformNeedsNothing(e: Entry, level: nat, lo: nat, op: Op)
    requires WF(e, level) && !op.unmap
    requires UniformIn(e, level, lo, op.begin, op.end, op.attrs)
    ensures Need(e, level, lo, op) == 0
    decreases level
  {
    if Partial(op, e, lo, level) {
      var a := Max(lo, op.begin);
      assert Norm(At(e, level, lo, a)) == Some(op.attrs);
      forall i | 0 <= i < |e.kids|
        ensures Need(e.kids[i], level - 1, EntryLo(lo, i, Size(level - 1)), op) == 0
      {
        UniformKid(e, level, lo, op.begin, op.end, op.attrs, i);
        UniformNeedsNothing(e.kids[i], level - 1, EntryLo(lo, i, Size(level - 1)), op);
      }
      NeedFromAllZero(e.kids, level - 1, lo, op, 0);
    }
  }

  lemma {:induction false} NeedFromAllZero(ks: seq<Entry>, level: nat, lo: nat, op: Op, i: nat)
    requires forall j | i <= j < |ks| :: Need(ks[j], level, EntryLo(lo, j, Size(level)), op) == 0
    ensures NeedFrom(ks, level, lo, op, i) == 0
    decreases |ks| - i
  {
    if i < |ks| { NeedFromAllZero(ks, level, lo, op, i + 1); }
  }

  // ---- Counting ------------------------------------------------------------------------------

  /** The number of table pages in an entry. */
  ghost function Count(e: Entry): nat
    decreases e, 0
  {
    if e.Leaf? then 0 else 1 + CountFrom(e.kids, 0)
  }

  ghost function CountFrom(ks: seq<Entry>, i: nat): nat
    decreases ks, |ks| - i
  {
    if i >= |ks| then 0 else Count(ks[i]) + CountFrom(ks, i + 1)
  }

  lemma {:induction false} LeafNeed(e: Entry, leaf: Entry, level: nat, lo: nat, op: Op)
    requires Solid(e, level, lo, op.begin, op.end) && !op.unmap && leaf.Leaf?
    ensures Need(leaf, level, lo, op) <= Count(e)
    decreases level, 0, 0
  {
    if Partial(op, leaf, lo, level) {
      LeafNeedFrom(e.kids, Split(leaf, level), level - 1, lo, op, 0);
    }
  }

  lemma {:induction false} LeafNeedFrom(ks: seq<Entry>, leaves: seq<Entry>, level: nat, lo: nat, op: Op, i: nat)
    requires |ks| == |leaves| && !op.unmap
    requires forall j | 0 <= j < |ks| :: leaves[j].Leaf?
    requires forall j | 0 <= j < |ks| :: Solid(ks[j], level, EntryLo(lo, j, Size(level)), op.begin, op.end)
    ensures NeedFrom(leaves, level, lo, op, i) <= CountFrom(ks, i)
    decreases level, 1, |ks| - i
  {
    if i < |ks| {
      LeafNeed(ks[i], leaves[i], level, EntryLo(lo, i, Size(level)), op);
      LeafNeedFrom(ks, leaves, level, lo, op, i + 1);
    }
  }

  /** After defragmenting an entry whose boundary tables all exist, mapping the range again needs
      at most as many pages as defragmentation freed. */
  lemma {:induction false} UndoNeedsWhatDefragFreed(e: Entry, level: nat, lo: nat, op: Op)
    requires WF(e, level) && Solid(e, level, lo, op.begin, op.end) && !op.unmap
    ensures Need(Defragged(e, level), level, lo, op) + Count(Defragged(e, level)) <= Count(e)
    decreases level, 0, 0
  {
    var d := Defragged(e, level);
    if d.Leaf? {
      LeafNeed(e, d, level, lo, op);
    } else {
      UndoNeedsFrom(e.kids, level - 1, lo, op, Crosses(op.begin, op.end, lo, level), 0);
    }
  }

  lemma {:induction false} UndoNeedsFrom(ks: seq<Entry>, level: nat, lo: nat, op: Op, solid: bool, i: nat)
    requires WFs(ks, level) && !op.unmap
    requires solid ==> forall j | 0 <= j < |ks| :: Solid(ks[j], level, EntryLo(lo, j, Size(level)), op.begin, op.end)
    ensures CountFrom(DefragAll(ks, level), i) <= CountFrom(ks, i)
    ensures solid ==>
              NeedFrom(DefragAll(ks, level), level, lo, op, i) + CountFrom(DefragAll(ks, level), i) <= CountFrom(ks, i)
    decreases level, 1, |ks| - i
  {
    if i < |ks| {
      var ds := DefragAll(ks, level);
      assert ds[i] == Defragged(ks[i], level);
      if solid {
        UndoNeedsWhatDefragFreed(ks[i], level, EntryLo(lo, i, Size(level)), op);
      } else {
        DefragShrinks(ks[i], level);
      }
      UndoNeedsFrom(ks, level, lo, op, solid, i + 1);
    }
  }

  lemma DefragShrinks(e: Entry, level: nat)
    requires WF(e, level)
    ensures Count(Defragged(e, level)) <= Count(e)
    decreases level, 0, 1
  {
    // A range that is empty crosses no entry.
    UndoNeedsWhatDefragFreed(e, level, 0, Op(0, 0, Attrs(false, false, false, false, false, false), false));
  }
}
