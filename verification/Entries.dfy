/** Page-table entries as finite trees: what an entry means, what one update must do to it, and how
    many pages the update needs. A leaf's `raw` value is `None` for the all-zero descriptor. */
module Entries {
  import opened Common
  import opened Geometry

  /** Stage-2 attributes: one flag per arch-independent mode bit that stage 2 encodes. */
  datatype Attrs = Attrs(r: bool, w: bool, x: bool, invalid: bool, unowned: bool, shared: bool)

  type Raw = Option<Attrs>

  datatype Entry = Leaf(raw: Raw) | Table(page: nat, kids: seq<Entry>)

  predicate Valid(a: Attrs) {
    !a.invalid
  }

  /** Valid, or invalid but still holding ownership state. */
  predicate Present(a: Attrs) {
    !a.invalid || !a.unowned
  }

  predicate IsPresent(e: Entry) {
    e.Table? || (e.raw.Some? && Present(e.raw.value))
  }

  predicate IsValid(e: Entry) {
    e.Table? || (e.raw.Some? && Valid(e.raw.value))
  }

  predicate BlockAllowed(level: nat) {
    level <= 2
  }

  /** A level-0 leaf counts as a block even when it is not present. */
  predicate IsBlock(e: Entry, level: nat) {
    BlockAllowed(level) && e.Leaf? && e.raw.Some? && (level == 0 || Present(e.raw.value))
  }

  /** All modes that leave the memory unrelated to the VM mean the same. */
  function Norm(raw: Raw): Raw {
    if raw.Some? && Present(raw.value) then raw else None
  }

  ghost predicate WF(e: Entry, level: nat)
    decreases e
  {
    match e
    case Leaf(raw) => raw.Some? ==> BlockAllowed(level)
    case Table(_, ks) =>
      level > 0 && |ks| == PTE_PER_PAGE && forall i | 0 <= i < |ks| :: WF(ks[i], level - 1)
  }

  ghost predicate WFs(ks: seq<Entry>, level: nat) {
    forall i | 0 <= i < |ks| :: WF(ks[i], level)
  }

  // ---- Meaning -------------------------------------------------------------------------------

  /** The raw leaf attributes that translate address `a`. */
  ghost function At(e: Entry, level: nat, lo: nat, a: nat): Raw
    requires WF(e, level) && lo <= a < lo + Size(level)
    decreases level, 0
  {
    match e
    case Leaf(raw) => raw
    case Table(_, ks) =>
      TableSpan(lo, level - 1);
      AtKids(ks, level - 1, lo, a)
  }

  ghost function AtKids(ks: seq<Entry>, level: nat, lo: nat, a: nat): Raw
    requires WFs(ks, level) && lo <= a < EntryLo(lo, |ks|, Size(level))
    decreases level, 1
  {
    EntryOf(lo, |ks|, Size(level), a);
    var i := Which(lo, Size(level), a);
    At(ks[i], level, EntryLo(lo, i, Size(level)), a)
  }

  ghost predicate SameView(e: Entry, e': Entry, level: nat, lo: nat)
    requires WF(e, level) && WF(e', level)
  {
    forall a | lo <= a < lo + Size(level) :: Norm(At(e', level, lo, a)) == Norm(At(e, level, lo, a))
  }

  lemma KidAt(ks: seq<Entry>, level: nat, lo: nat, i: nat, a: nat)
    requires WFs(ks, level) && i < |ks|
    requires EntryLo(lo, i, Size(level)) <= a < EntryLo(lo, i, Size(level)) + Size(level)
    ensures lo <= a < EntryLo(lo, |ks|, Size(level))
    ensures AtKids(ks, level, lo, a) == At(ks[i], level, EntryLo(lo, i, Size(level)), a)
  {
    EntryUnique(lo, i, Size(level), a);
    EntryLoOrder(lo, i, |ks|, Size(level));
  }

  // ---- Splitting -----------------------------------------------------------------------------

  /** The entries `populate_table` writes into a fresh table. */
  function Split(e: Entry, level: nat): (ks: seq<Entry>)
    requires e.Leaf?
    ensures |ks| == PTE_PER_PAGE
    ensures forall i | 0 <= i < |ks| :: ks[i] == Leaf(if IsBlock(e, level) then e.raw else None)
  {
    seq(PTE_PER_PAGE, _ => Leaf(if IsBlock(e, level) then e.raw else None))
  }

  function Kids(e: Entry, level: nat): (ks: seq<Entry>) {
    if e.Table? then e.kids else Split(e, level)
  }

  /** `e'` is `e` with some leaves replaced by equivalent tables. */
  ghost predicate SplitOf(e: Entry, e': Entry, level: nat)
    decreases e'
  {
    || e == e'
    || (&& e'.Table? && level > 0 && |e'.kids| == PTE_PER_PAGE == |Kids(e, level)|
        && (e.Table? ==> e.page == e'.page)
        && forall i | 0 <= i < PTE_PER_PAGE :: SplitOf(Kids(e, level)[i], e'.kids[i], level - 1))
  }

  lemma KidsWF(e: Entry, level: nat)
    requires WF(e, level) && level > 0
    ensures |Kids(e, level)| == PTE_PER_PAGE && WFs(Kids(e, level), level - 1)
  {
  }

  lemma KidsView(e: Entry, level: nat, lo: nat, i: nat, a: nat)
    requires WF(e, level) && level > 0 && i < PTE_PER_PAGE
    requires EntryLo(lo, i, Size(level - 1)) <= a < EntryLo(lo, i, Size(level - 1)) + Size(level - 1)
    ensures WFs(Kids(e, level), level - 1)
    ensures lo <= a < lo + Size(level)
    ensures Norm(At(e, level, lo, a)) == Norm(At(Kids(e, level)[i], level - 1, EntryLo(lo, i, Size(level - 1)), a))
  {
    KidsWF(e, level);
    EntryUnique(lo, i, Size(level - 1), a);
    EntryLoOrder(lo, i, 512, Size(level - 1));
    TableSpan(lo, level - 1);
    if e.Table? {
      KidAt(e.kids, level - 1, lo, i, a);
    }
  }

  /** Splitting blocks into tables preserves the meaning at every level. */
  lemma {:induction false} SplitPreservesView(e: Entry, e': Entry, level: nat, lo: nat)
    requires WF(e, level) && WF(e', level) && SplitOf(e, e', level)
    ensures SameView(e, e', level, lo)
    decreases e'
  {
    if e != e' {
      var s := Size(level - 1);
      forall a | lo <= a < lo + Size(level)
        ensures Norm(At(e', level, lo, a)) == Norm(At(e, level, lo, a))
      {
        TableSpan(lo, level - 1);
        EntryOf(lo, 512, s, a);
        var i := Which(lo, s, a);
        KidsView(e, level, lo, i, a);
        KidsView(e', level, lo, i, a);
        SplitPreservesView(Kids(e, level)[i], e'.kids[i], level - 1, EntryLo(lo, i, s));
      }
    }
  }

  // ---- One update ----------------------------------------------------------------------------

  datatype Op = Op(begin: nat, end: nat, attrs: Attrs, unmap: bool)

  predicate WFOp(op: Op) {
    op.begin % PAGE_SIZE == 0 && op.end % PAGE_SIZE == 0
  }

  predicate Overlaps(op: Op, lo: nat, level: nat) {
    op.begin < op.end && lo < op.end && op.begin < lo + Size(level)
  }

  /** The whole entry lies in the range and may be written as one descriptor. */
  predicate Whole(op: Op, lo: nat, level: nat) {
    op.begin <= lo && lo + Size(level) <= op.end && (op.unmap || BlockAllowed(level))
  }

  /** Already absent when unmapping, already mapped with these attributes when mapping. */
  predicate Skip(op: Op, e: Entry, level: nat) {
    if op.unmap then !IsPresent(e) else IsBlock(e, level) && e.raw == Some(op.attrs)
  }

  lemma PageIsWhole(op: Op, lo: nat)
    requires WFOp(op) && lo % PAGE_SIZE == 0 && Overlaps(op, lo, 0)
    ensures Whole(op, lo, 0)
  {
  }

  /** Must this entry be a table before the range can be written below it? */
  predicate Partial(op: Op, e: Entry, lo: nat, level: nat) {
    level > 0 && Overlaps(op, lo, level) && !Skip(op, e, level) && !Whole(op, lo, level)
  }

  /** The number of tables the first pass has to allocate. */
  ghost function Need(e: Entry, level: nat, lo: nat, op: Op): nat
    decreases level, 0, 0
  {
    if !Partial(op, e, lo, level) then 0
    else (if e.Table? then 0 else 1) + NeedFrom(Kids(e, level), level - 1, lo, op, 0)
  }

  ghost function NeedFrom(ks: seq<Entry>, level: nat, lo: nat, op: Op, i: nat): nat
    decreases level, 1, |ks| - i
  {
    if i >= |ks| then 0
    else Need(ks[i], level, EntryLo(lo, i, Size(level)), op) + NeedFrom(ks, level, lo, op, i + 1)
  }

  /** What the commit pass leaves in place of a prepared entry. */
  ghost function Commit(e: Entry, level: nat, lo: nat, op: Op): Entry
    decreases level, 0
  {
    if !Overlaps(op, lo, level) || Skip(op, e, level) then e
    else if Whole(op, lo, level) then Leaf(if op.unmap then None else Some(op.attrs))
    else if level == 0 || e.Leaf? then e
    else
      var ks := CommitKids(e.kids, level - 1, lo, op);
      if op.unmap && AllAbsent(ks) then Leaf(None) else Table(e.page, ks)
  }

  ghost function CommitKids(ks: seq<Entry>, level: nat, lo: nat, op: Op): (ks': seq<Entry>)
    ensures |ks'| == |ks|
    ensures forall i {:trigger ks'[i]} | 0 <= i < |ks| ::
              ks'[i] == Commit(ks[i], level, EntryLo(lo, i, Size(level)), op)
    decreases level, 1
  {
    seq(|ks|, i requires 0 <= i < |ks| => Commit(ks[i], level, EntryLo(lo, i, Size(level)), op))
  }

  predicate AllAbsent(ks: seq<Entry>) {
    forall k | k in ks :: !IsPresent(k)
  }

  lemma {:induction false} CommitWF(e: Entry, level: nat, lo: nat, op: Op)
    requires WF(e, level)
    ensures WF(Commit(e, level, lo, op), level)
    decreases level
  {
    if e.Table? {
      forall i | 0 <= i < |e.kids|
        ensures WF(Commit(e.kids[i], level - 1, EntryLo(lo, i, Size(level - 1)), op), level - 1)
      {
        CommitWF(e.kids[i], level - 1, EntryLo(lo, i, Size(level - 1)), op);
      }
    }
  }

  /** The view an update must produce from the view `was` at address `a`. */
  ghost predicate UpdatedAt(op: Op, was: Raw, now: Raw, a: nat) {
    if op.begin <= a < op.end then
      if op.unmap then Norm(now) == None else now == Some(op.attrs)
    else Norm(now) == Norm(was)
  }

  lemma {:induction false} NeedFromZero(ks: seq<Entry>, level: nat, lo: nat, op: Op, i: nat, j: nat)
    requires NeedFrom(ks, level, lo, op, i) == 0 && i <= j < |ks|
    ensures Need(ks[j], level, EntryLo(lo, j, Size(level)), op) == 0
    decreases j - i
  {
    if i < j { NeedFromZero(ks, level, lo, op, i + 1, j); }
  }

  /** A prepared entry, once committed, has exactly the requested range rewritten. */
  lemma {:induction false} CommitUpdates(e: Entry, level: nat, lo: nat, op: Op, a: nat)
    requires WF(e, level) && WFOp(op) && lo % Size(level) == 0
    requires lo <= a < lo + Size(level)
    requires Need(e, level, lo, op) == 0
    ensures WF(Commit(e, level, lo, op), level)
    ensures UpdatedAt(op, At(e, level, lo, a), At(Commit(e, level, lo, op), level, lo, a), a)
    decreases level
  {
    CommitWF(e, level, lo, op);
    if !Overlaps(op, lo, level) {
    } else if Skip(op, e, level) {
    } else if Whole(op, lo, level) {
    } else if level == 0 {
      PageIsWhole(op, lo);
    } else {
      CommitUpdatesKid(e, level, lo, op, a);
    }
  }

  lemma PreparedPartial(e: Entry, level: nat, lo: nat, op: Op)
    requires Partial(op, e, lo, level) && Need(e, level, lo, op) == 0
    ensures e.Table? && NeedFrom(e.kids, level - 1, lo, op, 0) == 0
    ensures var ks := CommitKids(e.kids, level - 1, lo, op);
            Commit(e, level, lo, op) == if op.unmap && AllAbsent(ks) then Leaf(None) else Table(e.page, ks)
  {
  }

  lemma {:induction false} CommitUpdatesKid(e: Entry, level: nat, lo: nat, op: Op, a: nat)
    requires WF(e, level) && WFOp(op) && lo % Size(level) == 0
    requires lo <= a < lo + Size(level)
    requires Need(e, level, lo, op) == 0 && Partial(op, e, lo, level)
    ensures WF(Commit(e, level, lo, op), level)
    ensures UpdatedAt(op, At(e, level, lo, a), At(Commit(e, level, lo, op), level, lo, a), a)
    decreases level, 0
  {
    hide At, AtKids, Commit, CommitKids, Need, NeedFrom, UpdatedAt;
    var s := Size(level - 1);
    TableSpan(lo, level - 1);
    EntryOf(lo, 512, s, a);
    var i := Which(lo, s, a);
    PreparedPartial(e, level, lo, op);
    EntryAligned(lo, i, level - 1);
    NeedFromZero(e.kids, level - 1, lo, op, 0, i);
    CommitUpdates(e.kids[i], level - 1, EntryLo(lo, i, s), op, a);
    CommitWF(e, level, lo, op);
    UpdatedKid(e, Commit(e, level, lo, op), CommitKids(e.kids, level - 1, lo, op), level, lo, op, a);
  }

  lemma UpdatedKid(e: Entry, e': Entry, ks: seq<Entry>, level: nat, lo: nat, op: Op, a: nat)
    requires WF(e, level) && WF(e', level) && e.Table? && |ks| == PTE_PER_PAGE
    requires e' == if op.unmap && AllAbsent(ks) then Leaf(None) else Table(e.page, ks)
    requires lo <= a < lo + Size(level)
    requires var s := Size(level - 1);
             var i := Which(lo, s, a);
             && i < PTE_PER_PAGE && WF(ks[i], level - 1)
             && UpdatedAt(op, At(e.kids[i], level - 1, EntryLo(lo, i, s), a),
                          At(ks[i], level - 1, EntryLo(lo, i, s), a), a)
    ensures UpdatedAt(op, At(e, level, lo, a), At(e', level, lo, a), a)
  {
    var i := Which(lo, Size(level - 1), a);
    KidAt(e.kids, level - 1, lo, i, a);
    if e'.Table? {
      KidAt(ks, level - 1, lo, i, a);
    } else {
      assert ks[i] in ks;
    }
  }
}
