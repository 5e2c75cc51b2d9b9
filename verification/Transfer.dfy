/** What updates mean for a whole address space, and why giving pages back to a sender always works. */
module Transfer {
  import opened Common
  import opened Entries
  import opened Rollback
  import opened Footprint
  import opened Stores
  import opened Roots
  import opened Undo
  import opened Attributes
  import opened Encoding

  /** Both trees say the same about every address. */
  ghost predicate SameMeaning(tops: seq<Entry>, tops': seq<Entry>, level: nat) {
    && Tables(tops, level) && Tables(tops', level) && |tops'| == |tops|
    && forall a: nat | a < SpaceEnd(|tops|, level) :: Norm(RawAt(tops', level, a)) == Norm(RawAt(tops, level, a))
  }

  /** The addresses of the range have the given attributes and all others mean what they did. */
  ghost predicate Rewritten(tops: seq<Entry>, tops': seq<Entry>, level: nat, begin: nat, end: nat, attrs: Attrs) {
    && Tables(tops, level) && Tables(tops', level) && |tops'| == |tops|
    && forall a: nat | a < SpaceEnd(|tops|, level) ::
         Norm(RawAt(tops', level, a)) == if begin <= a < end then Norm(Some(attrs)) else Norm(RawAt(tops, level, a))
  }

  lemma OutcomeMeaning(ok: bool, tops: seq<Entry>, mid: seq<Entry>, fin: seq<Entry>, level: nat, op: Op, had: nat)
    requires Outcome(ok, tops, mid, fin, level, op, had) && WFOp(op) && !op.unmap
    ensures ok ==> Rewritten(tops, fin, level, op.begin, op.end, op.attrs)
    ensures !ok ==> SameMeaning(tops, fin, level)
  {
    hide RawAt, RootNeed, RootCommit, WF;
    assert |fin| == |tops| by { hide Tables; OutcomeSize(ok, tops, mid, fin, level, op, had); }
    forall a: nat | a < SpaceEnd(|tops|, level)
      ensures ok ==> Norm(RawAt(fin, level, a)) ==
                     if op.begin <= a < op.end then Norm(Some(op.attrs)) else Norm(RawAt(tops, level, a))
      ensures !ok ==> Norm(RawAt(fin, level, a)) == Norm(RawAt(tops, level, a))
    {
      OutcomeView(ok, tops, mid, fin, level, op, had, a);
    }
  }

  lemma OutcomeSize(ok: bool, tops: seq<Entry>, mid: seq<Entry>, fin: seq<Entry>, level: nat, op: Op, had: nat)
    requires Outcome(ok, tops, mid, fin, level, op, had)
    ensures |fin| == |tops|
  {
  }

  lemma UpdatedOutcome(ok: bool, m: Mem, m': Mem, tops: seq<Entry>, mid: seq<Entry>, fin: seq<Entry>, level: nat,
                       op: Op, evs1: seq<Event>, evs2: seq<Event>)
    requires Updated(ok, m, m', tops, mid, fin, level, op, evs1, evs2)
    ensures Outcome(ok, tops, mid, fin, level, op, |m.avail|) && WFOp(op)
  {
  }

  lemma DefragMeaning(tops: seq<Entry>, tops': seq<Entry>, level: nat)
    requires Tables(tops, level) && Tables(tops', level) && RootDefrag(tops, tops', level)
    ensures SameMeaning(tops, tops', level)
  {
    hide RawAt, WF;
    forall a: nat | a < SpaceEnd(|tops|, level) ensures Norm(RawAt(tops', level, a)) == Norm(RawAt(tops, level, a)) {
      RootDefragView(tops, tops', level, a);
    }
  }

  /** A range that reads back as one present mode. */
  lemma ReadBack(tops: seq<Entry>, level: nat, begin: nat, end: nat, raw: Raw)
    requires Tables(tops, level) && UniformRaw(tops, level, begin, end, raw)
    requires !(FromRaw(raw).invalid && FromRaw(raw).unowned)
    ensures RootUniform(tops, level, begin, end, ToAttrs(FromRaw(raw)))
  {
    hide RawAt, WF;
  }

  /** Rewriting a range and then writing the old attributes back changes nothing. */
  lemma WriteBack(tops: seq<Entry>, fin: seq<Entry>, defr: seq<Entry>, back: seq<Entry>, level: nat, begin: nat,
                  end: nat, attrs: Attrs, was: Attrs)
    requires Rewritten(tops, fin, level, begin, end, attrs) && SameMeaning(fin, defr, level)
    requires Rewritten(defr, back, level, begin, end, was)
    requires Tables(tops, level) && RootUniform(tops, level, begin, end, was)
    ensures SameMeaning(tops, back, level)
  {
    hide RawAt, WF, Norm;
    forall a: nat | a < SpaceEnd(|tops|, level) ensures Norm(RawAt(back, level, a)) == Norm(RawAt(tops, level, a)) {
      assert begin <= a < end ==> Norm(RawAt(tops, level, a)) == Some(was);
      NormTwice(RawAt(tops, level, a));
    }
  }

  lemma NormTwice(raw: Raw)
    ensures Norm(Norm(raw)) == Norm(raw)
  {
  }

  /** After defragmenting, the sender's old mapping can be written back with the pages that
      defragmentation freed, so it never fails, and the sender's address space is as before. */
  lemma GiveBack(tops: seq<Entry>, mid: seq<Entry>, fin: seq<Entry>, defr: seq<Entry>, mid2: seq<Entry>,
                 back: seq<Entry>, level: nat, op: Op, had: nat, was: Attrs, ok: bool, had2: nat)
    requires Outcome(true, tops, mid, fin, level, op, had) && WFOp(op) && !op.unmap
    requires RootUniform(tops, level, op.begin, op.end, was)
    requires Tables(defr, level) && RootDefrag(fin, defr, level) && CountFrom(fin, 0) <= had2 + CountFrom(defr, 0)
    requires Outcome(ok, defr, mid2, back, level, op.(attrs := was), had2)
    ensures ok && SameMeaning(tops, back, level)
  {
    hide RawAt, RootNeed, RootCommit, WF, RootUniform, RootDefrag, RootSplit, CountFrom, SameMeaning, Rewritten;
    UndoAlwaysFits(tops, mid, fin, defr, level, op, had, was);
    OutcomeMeaning(true, tops, mid, fin, level, op, had);
    DefragMeaning(fin, defr, level);
    OutcomeMeaning(true, defr, mid2, back, level, op.(attrs := was), had2);
    WriteBack(tops, fin, defr, back, level, op.begin, op.end, op.attrs, was);
  }

  /** Without defragmenting, writing it back needs no page at all. */
  lemma GiveBackAtOnce(tops: seq<Entry>, mid: seq<Entry>, fin: seq<Entry>, mid2: seq<Entry>, back: seq<Entry>,
                       level: nat, op: Op, had: nat, was: Attrs, ok: bool, had2: nat)
    requires Outcome(true, tops, mid, fin, level, op, had) && WFOp(op) && !op.unmap
    requires RootUniform(tops, level, op.begin, op.end, was)
    requires Outcome(ok, fin, mid2, back, level, op.(attrs := was), had2)
    ensures ok && SameMeaning(tops, back, level)
  {
    hide RawAt, RootNeed, RootCommit, WF, RootUniform, RootDefrag, RootSplit, SameMeaning, Rewritten;
    UndoNeedsNothing(tops, mid, fin, level, op, had, was);
    OutcomeMeaning(true, tops, mid, fin, level, op, had);
    OutcomeMeaning(true, fin, mid2, back, level, op.(attrs := was), had2);
    SameAsItself(fin, level);
    WriteBack(tops, fin, fin, back, level, op.begin, op.end, op.attrs, was);
  }

  lemma SameAsItself(tops: seq<Entry>, level: nat)
    requires Tables(tops, level)
    ensures SameMeaning(tops, tops, level)
  {
  }
}
