/** Descriptor stores as a TLB sees them: a store is quiet when it exposes no translation that the entry
    did not already have, outside the range being rewritten. */
module Tlb {
  import opened Common
  import opened Geometry
  import opened Entries
  import opened Stores

  /** Is `a` one of the addresses whose translation the update may change? */
  predicate Target(op: Op, commit: bool, a: nat) {
    commit && op.begin <= a < op.end
  }

  /** A translation the hardware may cache. */
  predicate Cacheable(raw: Raw) {
    raw.Some? && Valid(raw.value)
  }

  ghost predicate Quiet(ev: Event, e: Entry, level: nat, lo: nat, op: Op, commit: bool)
    requires WF(e, level)
  {
    ev.Write? ==>
      && lo <= ev.lo && ev.lo + Size(ev.level) <= lo + Size(level)
      && WF(ev.after, ev.level)
      && forall a | ev.lo <= a < ev.lo + Size(ev.level) && !Target(op, commit, a) ::
           var now := At(ev.after, ev.level, ev.lo, a);
           Cacheable(now) ==> Norm(At(e, level, lo, a)) == now
  }

  ghost predicate Quiets(evs: seq<Event>, e: Entry, level: nat, lo: nat, op: Op, commit: bool)
    requires WF(e, level)
  {
    forall k | 0 <= k < |evs| :: Quiet(evs[k], e, level, lo, op, commit)
  }

  lemma QuietsConcat(xs: seq<Event>, ys: seq<Event>, e: Entry, level: nat, lo: nat, op: Op, commit: bool)
    requires WF(e, level) && Quiets(xs, e, level, lo, op, commit) && Quiets(ys, e, level, lo, op, commit)
    ensures Quiets(xs + ys, e, level, lo, op, commit)
  {
  }

  /** Quietness depends only on what the entry means. */
  lemma QuietsView(evs: seq<Event>, e: Entry, e': Entry, level: nat, lo: nat, op: Op, commit: bool)
    requires WF(e, level) && WF(e', level) && SameView(e, e', level, lo)
    requires Quiets(evs, e', level, lo, op, commit)
    ensures Quiets(evs, e, level, lo, op, commit)
  {
    forall k | 0 <= k < |evs| ensures Quiet(evs[k], e, level, lo, op, commit) {
      assert Quiet(evs[k], e', level, lo, op, commit);
    }
  }

  /** A write that is quiet for one entry of a table is quiet for the table. */
  lemma QuietsLift(evs: seq<Event>, e: Entry, level: nat, lo: nat, i: nat, op: Op, commit: bool)
    requires WF(e, level) && e.Table? && i < PTE_PER_PAGE
    requires Quiets(evs, e.kids[i], level - 1, EntryLo(lo, i, Size(level - 1)), op, commit)
    ensures Quiets(evs, e, level, lo, op, commit)
  {
    var below, from := level - 1, EntryLo(lo, i, Size(level - 1));
    TableSpan(lo, below);
    EntryLoOrder(lo, i, 512, Size(below));
    forall k | 0 <= k < |evs| ensures Quiet(evs[k], e, level, lo, op, commit) {
      var ev := evs[k];
      assert Quiet(ev, e.kids[i], below, from, op, commit);
      if ev.Write? {
        forall a | ev.lo <= a < ev.lo + Size(ev.level) && !Target(op, commit, a)
          ensures var now := At(ev.after, ev.level, ev.lo, a);
                  Cacheable(now) ==> Norm(At(e, level, lo, a)) == now
        {
          KidsView(e, level, lo, i, a);
        }
      }
    }
  }

  /** Replacing whatever is there by `e'` is quiet if `e'` exposes nothing new outside the range,
      whether the descriptor is written directly or broken first. */
  lemma ReplaceQuiet(x: Entry, e': Entry, e: Entry, level: nat, lo: nat, op: Op, commit: bool, begin: nat)
    requires WF(e, level) && WF(e', level)
    requires forall a | lo <= a < lo + Size(level) && !Target(op, commit, a) ::
               var now := At(e', level, lo, a);
               Cacheable(now) ==> Norm(At(e, level, lo, a)) == now
    ensures Quiets(ReplaceEvents(x, e', level, lo, begin), e, level, lo, op, commit)
  {
  }

  lemma LeafQuiet(x: Entry, raw: Raw, e: Entry, level: nat, lo: nat, op: Op, commit: bool, begin: nat)
    requires WF(e, level) && WF(Leaf(raw), level)
    requires !Cacheable(raw) || (commit && Whole(op, lo, level))
    ensures Quiets(ReplaceEvents(x, Leaf(raw), level, lo, begin), e, level, lo, op, commit)
  {
    ReplaceQuiet(x, Leaf(raw), e, level, lo, op, commit, begin);
  }

  lemma SplitQuiet(e: Entry, e': Entry, level: nat, lo: nat, op: Op, commit: bool, begin: nat)
    requires WF(e, level) && WF(e', level) && SplitOf(e, e', level)
    ensures Quiets(ReplaceEvents(e, e', level, lo, begin), e, level, lo, op, commit)
  {
    SplitPreservesView(e, e', level, lo);
    ReplaceQuiet(e, e', e, level, lo, op, commit, begin);
  }

  // ---- What the log says about the table -----------------------------------------------------

  /** The translation of `a` after a write. */
  ghost function Next(cur: Raw, ev: Event, a: nat): Raw {
    if ev.Write? && WF(ev.after, ev.level) && ev.lo <= a < ev.lo + Size(ev.level)
    then At(ev.after, ev.level, ev.lo, a) else cur
  }

  ghost function Replay(cur: Raw, evs: seq<Event>, a: nat): Raw {
    if evs == [] then cur else Next(Replay(cur, evs[..|evs| - 1], a), evs[|evs| - 1], a)
  }

  /** The logged stores turn the translations of `e` into those of `e'`. */
  ghost predicate Traces(evs: seq<Event>, e: Entry, e': Entry, level: nat, lo: nat)
    requires WF(e, level) && WF(e', level)
  {
    && Inside(evs, level, lo)
    && forall a | lo <= a < lo + Size(level) :: Replay(At(e, level, lo, a), evs, a) == At(e', level, lo, a)
  }

  lemma {:induction false} ReplayConcat(cur: Raw, xs: seq<Event>, ys: seq<Event>, a: nat)
    ensures Replay(cur, xs + ys, a) == Replay(Replay(cur, xs, a), ys, a)
  {
    if ys == [] {
      assert xs + ys == xs;
    } else {
      var n := |ys| - 1;
      ReplayConcat(cur, xs, ys[..n], a);
      assert (xs + ys)[..|xs + ys| - 1] == xs + ys[..n];
    }
  }

  lemma {:induction false} ReplayOutside(cur: Raw, evs: seq<Event>, level: nat, lo: nat, a: nat)
    requires Inside(evs, level, lo) && !(lo <= a < lo + Size(level))
    ensures Replay(cur, evs, a) == cur
  {
    if evs != [] {
      var n := |evs| - 1;
      ReplayOutside(cur, evs[..n], level, lo, a);
      assert InSpan(evs[n], level, lo);
    }
  }

  lemma TracesConcat(xs: seq<Event>, ys: seq<Event>, e: Entry, e1: Entry, e2: Entry, level: nat, lo: nat)
    requires WF(e, level) && WF(e1, level) && WF(e2, level)
    requires Traces(xs, e, e1, level, lo) && Traces(ys, e1, e2, level, lo)
    ensures Traces(xs + ys, e, e2, level, lo)
  {
    forall a | lo <= a < lo + Size(level)
      ensures Replay(At(e, level, lo, a), xs + ys, a) == At(e2, level, lo, a)
    {
      ReplayConcat(At(e, level, lo, a), xs, ys, a);
    }
    hide Replay, At;
    assert Inside(xs + ys, level, lo);
  }

  lemma TracesLift(evs: seq<Event>, t: nat, ks: seq<Entry>, i: nat, e: Entry, level: nat, lo: nat)
    requires WF(Table(t, ks), level + 1) && i < PTE_PER_PAGE && WF(e, level)
    requires Traces(evs, ks[i], e, level, EntryLo(lo, i, Size(level)))
    ensures WF(Table(t, ks[i := e]), level + 1)
    ensures Traces(evs, Table(t, ks), Table(t, ks[i := e]), level + 1, lo)
  {
    var x, x', from := Table(t, ks), Table(t, ks[i := e]), EntryLo(lo, i, Size(level));
    var up := level + 1;
    assert WF(x', up);
    TableSpan(lo, level);
    EntryLoOrder(lo, i, 512, Size(level));
    forall a | lo <= a < lo + Size(up)
      ensures Replay(At(x, up, lo, a), evs, a) == At(x', up, lo, a)
    {
      EntryOf(lo, 512, Size(level), a);
      var j := Which(lo, Size(level), a);
      KidAt(ks, level, lo, j, a);
      KidAt(x'.kids, level, lo, j, a);
      if j != i {
        EntryLoOrder(lo, i, j, Size(level));
        EntryLoOrder(lo, j, i, Size(level));
        ReplayOutside(At(x, up, lo, a), evs, level, from, a);
      }
    }
  }

  lemma ReplaceTraces(e: Entry, e': Entry, level: nat, lo: nat, begin: nat)
    requires WF(e, level) && WF(e', level)
    ensures Traces(ReplaceEvents(e, e', level, lo, begin), e, e', level, lo)
  {
    var evs := ReplaceEvents(e, e', level, lo, begin);
    var n := |evs| - 1;
    forall a | lo <= a < lo + Size(level)
      ensures Replay(At(e, level, lo, a), evs, a) == At(e', level, lo, a)
    {
      assert evs[n] == Write(lo, level, e');
    }
  }

  /** The log of one pass over an entry: the stores that turned `e` into `e'`, quiet and with every valid
      descriptor broken before it is remade. */
  ghost predicate Logged(evs: seq<Event>, e: Entry, e': Entry, level: nat, lo: nat, op: Op, commit: bool) {
    && WF(e, level) && WF(e', level)
    && Quiets(evs, e, level, lo, op, commit)
    && Traces(evs, e, e', level, lo)
    && Faithful(evs, e, e', level, lo, op, commit)
  }

  lemma LogNothing(e: Entry, level: nat, lo: nat, op: Op, commit: bool)
    requires WF(e, level)
    ensures Logged([], e, e, level, lo, op, commit)
  {
  }

  lemma LogLeaf(e: Entry, raw: Raw, level: nat, lo: nat, op: Op)
    requires WF(e, level) && WF(Leaf(raw), level) && Whole(op, lo, level)
    ensures Logged(ReplaceEvents(e, Leaf(raw), level, lo, Max(op.begin, lo)), e, Leaf(raw), level, lo, op, true)
  {
    var begin := Max(op.begin, lo);
    LeafQuiet(e, raw, e, level, lo, op, true, begin);
    ReplaceTraces(e, Leaf(raw), level, lo, begin);
    ReplaceFaithful(e, Leaf(raw), level, lo, op, true);
  }

  lemma LogSplit(e: Entry, e': Entry, level: nat, lo: nat, op: Op)
    requires WF(e, level) && WF(e', level) && SplitOf(e, e', level) && e'.Table?
    ensures Logged(ReplaceEvents(e, e', level, lo, Max(op.begin, lo)), e, e', level, lo, op, false)
  {
    var begin := Max(op.begin, lo);
    SplitQuiet(e, e', level, lo, op, false, begin);
    ReplaceTraces(e, e', level, lo, begin);
    ReplaceFaithful(e, e', level, lo, op, false);
  }

  /** Splitting first and then working below the new table. */
  lemma LogBelow(xs: seq<Event>, ys: seq<Event>, e: Entry, e1: Entry, e2: Entry, level: nat, lo: nat, op: Op,
                 commit: bool)
    requires SplitOf(e, e1, level) && (commit ==> xs == [])
    requires Logged(xs, e, e1, level, lo, op, commit) && Logged(ys, e1, e2, level, lo, op, commit)
    ensures Logged(xs + ys, e, e2, level, lo, op, commit)
  {
    hide Faithful, Quiets, Traces, SplitOf;
    SplitPreservesView(e, e1, level, lo);
    QuietsView(ys, e, e1, level, lo, op, commit);
    QuietsConcat(xs, ys, e, level, lo, op, commit);
    TracesConcat(xs, ys, e, e1, e2, level, lo);
    FaithfulConcat(xs, ys, e, e1, e2, level, lo, op, commit);
  }

  lemma LogCollapse(xs: seq<Event>, e: Entry, e2: Entry, level: nat, lo: nat, op: Op)
    requires Logged(xs, e, e2, level, lo, op, true)
    ensures Logged(xs + ReplaceEvents(e2, Leaf(None), level, lo, Max(op.begin, lo)), e, Leaf(None), level, lo, op, true)
  {
    hide Faithful, Quiets, Traces;
    var begin := Max(op.begin, lo);
    var ys := ReplaceEvents(e2, Leaf(None), level, lo, begin);
    LeafQuiet(e2, None, e, level, lo, op, true, begin);
    QuietsConcat(xs, ys, e, level, lo, op, true);
    ReplaceTraces(e2, Leaf(None), level, lo, begin);
    TracesConcat(xs, ys, e, e2, Leaf(None), level, lo);
    ReplaceFaithful(e2, Leaf(None), level, lo, op, true);
    assert Apart(xs, ys);
    FaithfulConcat(xs, ys, e, e2, Leaf(None), level, lo, op, true);
  }

  /** One more entry of a table has been handled. */
  lemma LogNext(xs: seq<Event>, ys: seq<Event>, t: nat, ks: seq<Entry>, cur: seq<Entry>, i: nat, e: Entry, level: nat,
                lo: nat, op: Op, commit: bool)
    requires i < PTE_PER_PAGE == |ks| == |cur| && cur[i] == ks[i] && Left(xs, EntryLo(lo, i, Size(level)))
    requires Logged(xs, Table(t, ks), Table(t, cur), level + 1, lo, op, commit)
    requires Logged(ys, ks[i], e, level, EntryLo(lo, i, Size(level)), op, commit)
    ensures Logged(xs + ys, Table(t, ks), Table(t, cur[i := e]), level + 1, lo, op, commit)
    ensures Left(xs + ys, EntryLo(lo, i + 1, Size(level)))
  {
    hide Faithful, Quiets, Left;
    QuietsLift(ys, Table(t, ks), level + 1, lo, i, op, commit);
    QuietsConcat(xs, ys, Table(t, ks), level + 1, lo, op, commit);
    TracesLift(ys, t, cur, i, e, level, lo);
    TracesConcat(xs, ys, Table(t, ks), Table(t, cur), Table(t, cur[i := e]), level + 1, lo);
    FaithfulNext(xs, ys, t, ks, cur, i, e, level, lo, op, commit);
  }

  // ---- What a TLB may hold -------------------------------------------------------------------

  ghost function CacheOf(raw: Raw): set<Attrs> {
    if Cacheable(raw) then {raw.value} else {}
  }

  /** Everything a TLB may hold for address `a` after one more event: it may cache any translation as
      soon as it is written, and an invalidation leaves at most the current one. */
  ghost function TlbStep(cur: Raw, tlb: set<Attrs>, ev: Event, a: nat): set<Attrs> {
    match ev
    case Write(_, _, _) => tlb + CacheOf(Next(cur, ev, a))
    case Invalidate(begin, end) => if begin <= a < end then CacheOf(cur) else tlb
  }

  ghost function TlbAfter(cur: Raw, tlb: set<Attrs>, evs: seq<Event>, a: nat): set<Attrs> {
    if evs == [] then tlb
    else
      var n := |evs| - 1;
      TlbStep(Replay(cur, evs[..n], a), TlbAfter(cur, tlb, evs[..n], a), evs[n], a)
  }

  lemma {:induction false} TlbConcat(cur: Raw, tlb: set<Attrs>, xs: seq<Event>, ys: seq<Event>, a: nat)
    ensures TlbAfter(cur, tlb, xs + ys, a) == TlbAfter(Replay(cur, xs, a), TlbAfter(cur, tlb, xs, a), ys, a)
  {
    if ys == [] {
      assert xs + ys == xs;
    } else {
      var n := |ys| - 1;
      TlbConcat(cur, tlb, xs, ys[..n], a);
      ReplayConcat(cur, xs, ys[..n], a);
      assert (xs + ys)[..|xs + ys| - 1] == xs + ys[..n];
    }
  }

  /** Writes that expose only the translation `raw` leave nothing else in a TLB. */
  lemma {:induction false} TlbStays(cur: Raw, tlb: set<Attrs>, evs: seq<Event>, a: nat, raw: Raw)
    requires CacheOf(cur) <= CacheOf(raw) && tlb <= CacheOf(raw)
    requires forall k | 0 <= k < |evs| :: forall c :: CacheOf(c) <= CacheOf(raw) ==>
               CacheOf(Next(c, evs[k], a)) <= CacheOf(raw)
    ensures TlbAfter(cur, tlb, evs, a) <= CacheOf(raw) && CacheOf(Replay(cur, evs, a)) <= CacheOf(raw)
  {
    if evs != [] {
      var n := |evs| - 1;
      var xs := evs[..n];
      assert forall k | 0 <= k < n :: xs[k] == evs[k];
      TlbStays(cur, tlb, xs, a, raw);
    }
  }
}
