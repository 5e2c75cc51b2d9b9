/** The memory-sharing calls on two VMs' page tables, with their rollback. Every call works through a
    private pool on top of a fallback that other CPUs may empty at any moment. */
module Sharing {
  import opened Common
  import opened Geometry
  import opened Entries
  import opened Rollback
  import opened Footprint
  import opened Roots
  import opened Undo
  import opened Attributes
  import opened Encoding
  import opened Transitions
  import opened Transfer
  import PT = PageTable
  import P = MPool

  // ---- Two tables and a pool -----------------------------------------------------------------

  /** Two page tables that use the same pool and have no page in common. */
  ghost predicate Pair(a: PT.PageTable, b: PT.PageTable, pool: P.MPool)
    reads a, b, pool, pool.Repr
  {
    && a != b && a.Valid() && b.Valid() && a.Ready(pool) && b.Ready(pool)
    && a.store.Keys !! b.store.Keys
  }

  /** Every page that the two tables or the pool hold. */
  ghost function Held(a: PT.PageTable, b: PT.PageTable, pool: P.MPool): set<nat>
    reads a, b, pool
  {
    a.store.Keys + b.store.Keys + pool.avail
  }

  lemma HeldSwaps(a: PT.PageTable, b: PT.PageTable, pool: P.MPool)
    ensures Held(a, b, pool) == Held(b, a, pool)
  {
  }

  lemma HeldIs(a: PT.PageTable, b: PT.PageTable, pool: P.MPool)
    ensures Held(a, b, pool) == Total(a.Snap(pool)) + b.store.Keys
  {
  }

  lemma OthersUntouched(m: Mem, m': Mem, others: set<nat>)
    requires Total(m') == Total(m) && others !! m.store.Keys && others !! m.avail
    ensures others !! m'.store.Keys && others !! m'.avail
  {
    assert forall q | q in others :: q !in Total(m');
  }

  /** A page-aligned range inside the address space is what an update works on. */
  lemma RequestIsRange(t: PT.PageTable, begin: nat, end: nat, attrs: Attrs)
    requires t.Valid() && begin % PAGE_SIZE == 0 && end % PAGE_SIZE == 0 && begin < end <= t.End()
    ensures PT.ClearPa(begin) == begin
    ensures t.Request(begin, end, attrs, false) == Op(begin, end, attrs, false)
  {
  }

  method Map(a: PT.PageTable, b: PT.PageTable, begin: nat, end: nat, mode: Mode, pool: P.MPool)
    returns (ok: bool, ghost mid: seq<Entry>)
    requires Pair(a, b, pool) && begin % PAGE_SIZE == 0 && end % PAGE_SIZE == 0 && begin < end <= a.End()
    modifies a`store, a`tops, pool.Repr
    ensures Pair(a, b, pool)
    ensures Outcome(ok, old(a.tops), mid, a.tops, a.maxLevel, Op(begin, end, ToAttrs(mode), false), |old(pool.avail)|)
    ensures WFOp(Op(begin, end, ToAttrs(mode), false))
    ensures Held(a, b, pool) == old(Held(a, b, pool))
  {
    hide Updated, Outcome, RootOk, P.MPool.Valid, Total, PT.ClearPa, Held;
    HeldIs(a, b, pool);
    RequestIsRange(a, begin, end, ToAttrs(mode));
    ghost var evs1, evs2;
    ok, mid, evs1, evs2 := a.IdentityMap(begin, end, mode, pool);
    UpdatedOutcome(ok, old(a.Snap(pool)), a.Snap(pool), old(a.tops), mid, a.tops, a.maxLevel,
                   Op(begin, end, ToAttrs(mode), false), evs1, evs2);
    OthersUntouched(old(a.Snap(pool)), a.Snap(pool), b.store.Keys);
    HeldIs(a, b, pool);
  }

  method Defragment(a: PT.PageTable, b: PT.PageTable, pool: P.MPool)
    requires Pair(a, b, pool)
    modifies a`store, a`tops, pool.Repr
    ensures Pair(a, b, pool)
    ensures Tables(old(a.tops), a.maxLevel) && Tables(a.tops, a.maxLevel) && RootDefrag(old(a.tops), a.tops, a.maxLevel)
    ensures |pool.own| + CountFrom(a.tops, 0) == |old(pool.own)| + CountFrom(old(a.tops), 0)
    ensures Held(a, b, pool) == old(Held(a, b, pool))
  {
    hide RootOk, P.MPool.Valid, Total, RootDefrag, Tables, CountFrom, Balanced, Held;
    HeldIs(a, b, pool);
    a.Defrag(pool);
    OthersUntouched(old(a.Snap(pool)), a.Snap(pool), b.store.Keys);
    HeldIs(a, b, pool);
  }

  /** Other CPUs get to use the fallback. */
  method Interrupted(a: PT.PageTable, b: PT.PageTable, pool: P.MPool, n: nat)
    requires Pair(a, b, pool) && pool.fallback != null
    modifies pool.Repr
    ensures Pair(a, b, pool) && pool.own == old(pool.own) && Held(a, b, pool) <= old(Held(a, b, pool))
  {
    hide RootOk, P.MPool.Valid;
    pool.OthersTake(n);
  }

  /** An update of the hypervisor's own table uses the pool. */
  method Taken(a: PT.PageTable, b: PT.PageTable, pool: P.MPool, n: nat)
    requires Pair(a, b, pool)
    modifies pool.Repr
    ensures Pair(a, b, pool) && Held(a, b, pool) <= old(Held(a, b, pool))
  {
    hide RootOk, P.MPool.Valid;
    pool.TakeAny(n);
  }

  lemma OwnIsAvailable(pool: P.MPool)
    requires pool.Valid()
    ensures |pool.own| <= |pool.avail|
  {
    pool.OwnAvailable();
    Subset(pool.own, pool.avail);
  }

  lemma {:induction false} Subset(x: set<nat>, y: set<nat>)
    requires x <= y
    ensures |x| <= |y|
  {
    if x != {} {
      var q :| q in x;
      Subset(x - {q}, y - {q});
    }
  }

  /** Recovers the pages a failed call used and gives the sender its mapping back. The `unwrap` of the
      last update is the assertion: it cannot fail, whatever other CPUs took in the meantime. */
  method Recover(from: PT.PageTable, to: PT.PageTable, begin: nat, end: nat, orig: Mode, local: P.MPool, n: nat,
                 ghost tops: seq<Entry>, ghost mid: seq<Entry>, ghost attrs: Attrs, ghost had: nat)
    requires Pair(from, to, local) && local.fallback != null
    requires begin % PAGE_SIZE == 0 && end % PAGE_SIZE == 0 && begin < end <= from.End()
    requires Outcome(true, tops, mid, from.tops, from.maxLevel, Op(begin, end, attrs, false), had)
    requires RootUniform(tops, from.maxLevel, begin, end, ToAttrs(orig))
    modifies from`store, from`tops, local.Repr
    ensures Pair(from, to, local) && SameMeaning(tops, from.tops, from.maxLevel)
    ensures Held(from, to, local) <= old(Held(from, to, local))
  {
    hide Held, RootOk, P.MPool.Valid, Outcome, RootDefrag, Tables, CountFrom, SameMeaning, RootUniform;
    ghost var fin := from.tops;
    Defragment(from, to, local);
    ghost var defr := from.tops;
    Interrupted(from, to, local, n);
    OwnIsAvailable(local);
    ghost var had2 := |local.avail|;
    var ok;
    ghost var mid2;
    ok, mid2 := Map(from, to, begin, end, orig, local);
    GiveBack(tops, mid, fin, defr, mid2, from.tops, from.maxLevel, Op(begin, end, attrs, false), had, ToAttrs(orig),
             ok, had2);
    assert ok;
  }

  // ---- Memory-sharing messages ---------------------------------------------------------------

  /** The sender's mode before a transfer, and both modes after it. */
  datatype Plan = Plan(orig: Mode, from: Mode, to: Mode)

  /** The range is page-aligned, has one mode in each VM, and the transition tables allow the move. */
  ghost predicate Lawful(share: MemoryShare, access: Access, from: seq<Entry>, fromLevel: nat, to: seq<Entry>,
                         toLevel: nat, begin: nat, end: nat, plan: Plan)
    requires Tables(from, fromLevel) && Tables(to, toLevel)
  {
    && begin % PAGE_SIZE == 0 && end % PAGE_SIZE == 0
    && exists f, t ::
         && UniformRaw(from, fromLevel, begin, end, f) && UniformRaw(to, toLevel, begin, end, t)
         && plan.orig == FromRaw(f) && NextState(share, access, FromRaw(f), FromRaw(t)) == Some((plan.from, plan.to))
  }

  ghost predicate Unlawful(share: MemoryShare, access: Access, from: seq<Entry>, fromLevel: nat, to: seq<Entry>,
                           toLevel: nat, begin: nat, end: nat)
    requires Tables(from, fromLevel) && Tables(to, toLevel)
  {
    forall plan :: !Lawful(share, access, from, fromLevel, to, toLevel, begin, end, plan)
  }

  method CheckTransition(to: PT.PageTable, from: PT.PageTable, share: MemoryShare, begin: nat, end: nat, access: Access)
    returns (r: Result<Plan>)
    requires to.Valid() && from.Valid()
    ensures Tables(from.tops, from.maxLevel) && Tables(to.tops, to.maxLevel)
    ensures r.Ok? ==> Lawful(share, access, from.tops, from.maxLevel, to.tops, to.maxLevel, begin, end, r.value)
    ensures r.Err? ==> Unlawful(share, access, from.tops, from.maxLevel, to.tops, to.maxLevel, begin, end)
  {
    hide RootOk, UniformRaw, Tables, NextState, FromRaw;
    TablesOf(from);
    TablesOf(to);
    if begin % PAGE_SIZE != 0 || end % PAGE_SIZE != 0 {
      return Err;
    }
    assert RoundDownToPage(begin) == begin && RoundUpToPage(end) == end;
    var origFrom, origTo;
    ghost var f, t;
    origFrom, f := from.GetMode(begin, end);
    if origFrom.Err? {
      return Err;
    }
    origTo, t := to.GetMode(begin, end);
    if origTo.Err? {
      return Err;
    }
    var next := NextState(share, access, origFrom.value, origTo.value);
    if next.None? {
      forall plan ensures !Lawful(share, access, from.tops, from.maxLevel, to.tops, to.maxLevel, begin, end, plan) {
        OnlyPlan(share, access, from.tops, from.maxLevel, to.tops, to.maxLevel, begin, end, plan, f, t);
      }
      return Err;
    }
    r := Ok(Plan(origFrom.value, next.value.0, next.value.1));
  }

  /** A range has at most one attribute value, so the plan is determined. */
  lemma OnlyPlan(share: MemoryShare, access: Access, from: seq<Entry>, fromLevel: nat, to: seq<Entry>, toLevel: nat,
                 begin: nat, end: nat, plan: Plan, f: Raw, t: Raw)
    requires Tables(from, fromLevel) && Tables(to, toLevel)
    requires UniformRaw(from, fromLevel, begin, end, f) && UniformRaw(to, toLevel, begin, end, t)
    ensures Lawful(share, access, from, fromLevel, to, toLevel, begin, end, plan) ==>
            plan.orig == FromRaw(f) && NextState(share, access, FromRaw(f), FromRaw(t)) == Some((plan.from, plan.to))
  {
    hide RawAt, NextState, WF, FromRaw;
    forall f': Raw | UniformRaw(from, fromLevel, begin, end, f') ensures f' == f {
      assert RawAt(from, fromLevel, begin) == f;
    }
    forall t': Raw | UniformRaw(to, toLevel, begin, end, t') ensures t' == t {
      assert RawAt(to, toLevel, begin) == t;
    }
  }

  lemma LawfulFacts(share: MemoryShare, access: Access, from: seq<Entry>, fromLevel: nat, to: seq<Entry>, toLevel: nat,
                    begin: nat, end: nat, plan: Plan)
    requires Tables(from, fromLevel) && Tables(to, toLevel)
    requires Lawful(share, access, from, fromLevel, to, toLevel, begin, end, plan)
    ensures begin % PAGE_SIZE == 0 && end % PAGE_SIZE == 0
    ensures begin < end <= SpaceEnd(|from|, fromLevel) && end <= SpaceEnd(|to|, toLevel)
    ensures RootUniform(from, fromLevel, begin, end, ToAttrs(plan.orig))
  {
    hide RawAt, NextState, WF, FromRaw, RootUniform;
    var f, t :|
      && UniformRaw(from, fromLevel, begin, end, f) && UniformRaw(to, toLevel, begin, end, t)
      && plan.orig == FromRaw(f) && NextState(share, access, FromRaw(f), FromRaw(t)) == Some((plan.from, plan.to));
    TablesMatchPurpose(share, access, FromRaw(f), FromRaw(t));
    ReadBack(from, fromLevel, begin, end, f);
  }

  /** The two updates of a sharing call, the second of which may have to be answered by undoing the
      first. `sent` is the sender's table after its update. */
  method MoveRange(to: PT.PageTable, from: PT.PageTable, begin: nat, end: nat, plan: Plan, local: P.MPool,
                   drain: (nat, nat, nat))
    returns (r: SpciReturn, ghost sent: Option<seq<Entry>>)
    requires Pair(from, to, local) && local.fallback != null
    requires begin % PAGE_SIZE == 0 && end % PAGE_SIZE == 0 && begin < end <= from.End() && end <= to.End()
    requires Tables(from.tops, from.maxLevel) && RootUniform(from.tops, from.maxLevel, begin, end, ToAttrs(plan.orig))
    modifies from`store, from`tops, to`store, to`tops, local.Repr
    ensures Pair(from, to, local) && (r.Success? || r.NoMemory?) && (r.Success? ==> sent == Some(from.tops))
    ensures sent.Some? ==> Rewritten(old(from.tops), sent.value, from.maxLevel, begin, end, ToAttrs(plan.from))
    ensures Held(from, to, local) <= old(Held(from, to, local))
    ensures r.NoMemory? ==>
              SameMeaning(old(from.tops), from.tops, from.maxLevel) && SameMeaning(old(to.tops), to.tops, to.maxLevel)
    ensures r.Success? ==>
            && Rewritten(old(from.tops), from.tops, from.maxLevel, begin, end, ToAttrs(plan.from))
            && Rewritten(old(to.tops), to.tops, to.maxLevel, begin, end, ToAttrs(plan.to))
  {
    hide Held, RootOk, P.MPool.Valid, Outcome, Tables, SameMeaning, Rewritten, RootUniform;
    ghost var op, had := Op(begin, end, ToAttrs(plan.from), false), |local.avail|;
    TablesOf(to);
    SameAsItself(to.tops, to.maxLevel);
    var ok;
    ghost var mid, mid2;
    ok, mid := Map(from, to, begin, end, plan.from, local);
    OutcomeMeaning(ok, old(from.tops), mid, from.tops, from.maxLevel, op, had);
    if !ok {
      return NoMemory, None;
    }
    sent := Some(from.tops);
    Interrupted(from, to, local, drain.0);
    ghost var had2 := |local.avail|;
    HeldSwaps(from, to, local);
    ok, mid2 := Map(to, from, begin, end, plan.to, local);
    HeldSwaps(from, to, local);
    OutcomeMeaning(ok, old(to.tops), mid2, to.tops, to.maxLevel, Op(begin, end, ToAttrs(plan.to), false), had2);
    if !ok {
      Interrupted(from, to, local, drain.1);
      Recover(from, to, begin, end, plan.orig, local, drain.2, old(from.tops), mid, ToAttrs(plan.from), had);
      return NoMemory, sent;
    }
    return Success, sent;
  }

  lemma TablesOf(t: PT.PageTable)
    requires t.Valid()
    ensures Tables(t.tops, t.maxLevel)
  {
  }

  /** Shares memory between two VMs: on success both address spaces change exactly as planned, and
      otherwise neither means anything else than before. `drain` is how many pages other CPUs take from
      the fallback between the steps. */
  method SpciShareMemory(to: PT.PageTable, from: PT.PageTable, address: nat, pageCount: nat, access: Access,
                         share: MemoryShare, fallback: P.MPool, drain: (nat, nat, nat))
    returns (r: SpciReturn, ghost plan: Plan, ghost sent: Option<seq<Entry>>)
    requires to == from || Pair(from, to, fallback)
    modifies from`store, from`tops, to`store, to`tops, fallback.Repr
    ensures r.Success? || r.NoMemory? || r.InvalidParameters?
    ensures to == from ==> r.InvalidParameters? && unchanged(from)
    ensures to == from ==> unchanged(fallback.Repr)
    ensures to != from ==> Pair(from, to, fallback) && Held(from, to, fallback) <= old(Held(from, to, fallback))
    ensures to != from ==> Tables(old(from.tops), from.maxLevel) && Tables(old(to.tops), to.maxLevel)
    ensures r.InvalidParameters? ==> from.tops == old(from.tops) && to.tops == old(to.tops)
    ensures r.InvalidParameters? && to != from ==>
            Unlawful(share, access, old(from.tops), from.maxLevel, old(to.tops), to.maxLevel, address,
                     address + pageCount * PAGE_SIZE)
    ensures !r.InvalidParameters? ==>
            Lawful(share, access, old(from.tops), from.maxLevel, old(to.tops), to.maxLevel, address,
                   address + pageCount * PAGE_SIZE, plan)
    ensures r.NoMemory? ==>
              SameMeaning(old(from.tops), from.tops, from.maxLevel) && SameMeaning(old(to.tops), to.tops, to.maxLevel)
    ensures (r.Success? ==> sent == Some(from.tops)) && (r.InvalidParameters? ==> sent.None?)
    ensures sent.Some? ==>
            Rewritten(old(from.tops), sent.value, from.maxLevel, address, address + pageCount * PAGE_SIZE,
                      ToAttrs(plan.from))
    ensures r.Success? ==>
            && Rewritten(old(from.tops), from.tops, from.maxLevel, address, address + pageCount * PAGE_SIZE,
                         ToAttrs(plan.from))
            && Rewritten(old(to.tops), to.tops, to.maxLevel, address, address + pageCount * PAGE_SIZE, ToAttrs(plan.to))
  {
    hide RootOk, P.MPool.Valid, Outcome, Tables, SameMeaning, Rewritten, Lawful, RootUniform;
    plan, sent := Plan(RWX, RWX, RWX), None;
    if to == from {
      return InvalidParameters, plan, None;
    }
    var local := new P.MPool.WithFallback(fallback);
    var begin, end := address, address + pageCount * PAGE_SIZE;
    var next := CheckTransition(to, from, share, begin, end, access);
    if next.Err? {
      local.Drop();
      return InvalidParameters, plan, None;
    }
    plan := next.value;
    LawfulFacts(share, access, from.tops, from.maxLevel, to.tops, to.maxLevel, begin, end, plan);
    r, sent := MoveRange(to, from, begin, end, next.value, local, drain);
    local.Drop();
  }

  // ---- The older share call ------------------------------------------------------------------

  /** The one mode that the whole range has, if it has one. */
  ghost function ModeOf(tops: seq<Entry>, level: nat, begin: nat, end: nat): Option<Mode>
    requires Tables(tops, level)
  {
    if raw :| UniformRaw(tops, level, begin, end, raw) then Some(FromRaw(raw)) else None
  }

  lemma ModeIs(tops: seq<Entry>, level: nat, begin: nat, end: nat, raw: Raw)
    requires Tables(tops, level) && UniformRaw(tops, level, begin, end, raw)
    ensures ModeOf(tops, level, begin, end) == Some(FromRaw(raw))
  {
    hide RawAt, WF, FromRaw;
    forall raw': Raw | UniformRaw(tops, level, begin, end, raw') ensures raw' == raw {
      assert RawAt(tops, level, begin) == raw;
    }
  }

  ghost predicate Shareable(share: HfShare, from: seq<Entry>, to: seq<Entry>, level: nat, begin: nat, end: nat)
    requires Tables(from, level) && Tables(to, level)
  {
    && begin % PAGE_SIZE == 0 && end % PAGE_SIZE == 0
    && ModeOf(from, level, begin, end).Some?
    && ShareAllowed(share, ModeOf(from, level, begin, end).value, ModeOf(to, level, begin, end))
  }

  /** The checks of `share_memory`, in its order. Returns the sender's mode if the call may go on. */
  method CheckShare(to: PT.PageTable, from: PT.PageTable, begin: nat, end: nat, share: HfShare)
    returns (r: Option<Mode>)
    requires to.Valid() && from.Valid() && to.maxLevel == from.maxLevel
    ensures Tables(from.tops, from.maxLevel) && Tables(to.tops, from.maxLevel)
    ensures r.Some? <==> Shareable(share, from.tops, to.tops, from.maxLevel, begin, end)
    ensures r.Some? ==> r == ModeOf(from.tops, from.maxLevel, begin, end)
    ensures r.Some? ==> begin < end <= from.End() && RootUniform(from.tops, from.maxLevel, begin, end, ToAttrs(r.value))
  {
    hide RootOk, UniformRaw, Tables, FromRaw, RootUniform;
    TablesOf(from);
    TablesOf(to);
    if begin % PAGE_SIZE != 0 || end % PAGE_SIZE != 0 {
      return None;
    }
    assert RoundDownToPage(begin) == begin && RoundUpToPage(end) == end;
    var origFrom;
    ghost var f;
    origFrom, f := from.GetMode(begin, end);
    if origFrom.Err? {
      return None;
    }
    ModeIs(from.tops, from.maxLevel, begin, end, f);
    if origFrom.value.invalid {
      return None;
    }
    if origFrom.value.unowned {
      var toMode;
      ghost var t;
      toMode, t := to.GetMode(begin, end);
      if toMode.Err? {
        return None;
      }
      ModeIs(to.tops, from.maxLevel, begin, end, t);
      if toMode.value.unowned || share != Give {
        return None;
      }
    } else if origFrom.value.shared {
      return None;
    }
    ReadBack(from.tops, from.maxLevel, begin, end, f);
    RangeOf(from.tops, from.maxLevel, begin, end, f);
    r := Some(origFrom.value);
  }

  lemma RangeOf(tops: seq<Entry>, level: nat, begin: nat, end: nat, raw: Raw)
    requires Tables(tops, level) && UniformRaw(tops, level, begin, end, raw)
    ensures begin < end <= SpaceEnd(|tops|, level)
  {
  }

  /** Both updates with the clearing of the memory in between, which works on the hypervisor's own table
      with the same local pool: it may use up `takes` of its pages, and it may fail. */
  method MoveCleared(to: PT.PageTable, from: PT.PageTable, begin: nat, end: nat, plan: Plan, local: P.MPool,
                     takes: nat, clears: bool, drain: (nat, nat))
    returns (ok: bool, ghost sent: Option<seq<Entry>>)
    requires Pair(from, to, local) && local.fallback != null
    requires begin % PAGE_SIZE == 0 && end % PAGE_SIZE == 0 && begin < end <= from.End() && end <= to.End()
    requires Tables(from.tops, from.maxLevel) && RootUniform(from.tops, from.maxLevel, begin, end, ToAttrs(plan.orig))
    modifies from`store, from`tops, to`store, to`tops, local.Repr
    ensures Pair(from, to, local) && Held(from, to, local) <= old(Held(from, to, local))
    ensures ok ==> sent == Some(from.tops)
    ensures sent.Some? ==> Rewritten(old(from.tops), sent.value, from.maxLevel, begin, end, ToAttrs(plan.from))
    ensures !ok ==>
              SameMeaning(old(from.tops), from.tops, from.maxLevel) && SameMeaning(old(to.tops), to.tops, to.maxLevel)
    ensures ok ==>
            && Rewritten(old(from.tops), from.tops, from.maxLevel, begin, end, ToAttrs(plan.from))
            && Rewritten(old(to.tops), to.tops, to.maxLevel, begin, end, ToAttrs(plan.to))
  {
    hide Held, RootOk, P.MPool.Valid, Outcome, Tables, SameMeaning, Rewritten, RootUniform;
    ghost var op, had := Op(begin, end, ToAttrs(plan.from), false), |local.avail|;
    TablesOf(to);
    SameAsItself(to.tops, to.maxLevel);
    ghost var mid, mid2;
    ok, mid := Map(from, to, begin, end, plan.from, local);
    OutcomeMeaning(ok, old(from.tops), mid, from.tops, from.maxLevel, op, had);
    if !ok {
      return false, None;
    }
    ghost var fin := from.tops;
    sent := Some(fin);
    Taken(from, to, local, takes);
    ghost var had2 := |local.avail|;
    if !clears {
      ok, mid2 := Map(from, to, begin, end, plan.orig, local);
      GiveBackAtOnce(old(from.tops), mid, fin, mid2, from.tops, from.maxLevel, op, had, ToAttrs(plan.orig), ok, had2);
      assert ok;
      return false, sent;
    }
    HeldSwaps(from, to, local);
    ok, mid2 := Map(to, from, begin, end, plan.to, local);
    HeldSwaps(from, to, local);
    OutcomeMeaning(ok, old(to.tops), mid2, to.tops, to.maxLevel, Op(begin, end, ToAttrs(plan.to), false), had2);
    if !ok {
      Interrupted(from, to, local, drain.0);
      Recover(from, to, begin, end, plan.orig, local, drain.1, old(from.tops), mid, ToAttrs(plan.from), had);
    }
  }

  /** Gives, lends or shares memory: all or nothing over both address spaces. */
  method ShareMemory(to: PT.PageTable?, from: PT.PageTable, address: nat, size: nat, share: HfShare, fallback: P.MPool,
                     takes: nat, clears: bool, drain: (nat, nat))
    returns (ok: bool, ghost sent: Option<seq<Entry>>)
    requires to != null && to != from ==>
               Pair(from, to, fallback) && to.maxLevel == from.maxLevel && to.count == from.count
    modifies from`store, from`tops, to, fallback.Repr
    ensures to == null || to == from ==> !ok && sent.None? && unchanged(from) && unchanged(fallback.Repr)
    ensures to != null && to != from ==>
              Pair(from, to, fallback) && Held(from, to, fallback) <= old(Held(from, to, fallback))
    ensures to != null && to != from ==> Tables(old(from.tops), from.maxLevel) && Tables(old(to.tops), from.maxLevel)
    ensures to != null && to != from &&
            !Shareable(share, old(from.tops), old(to.tops), from.maxLevel, address, address + size) ==>
            !ok && sent.None? && from.tops == old(from.tops) && to.tops == old(to.tops)
    ensures ok ==> sent == Some(from.tops)
    ensures sent.Some? ==>
            Rewritten(old(from.tops), sent.value, from.maxLevel, address, address + size, ToAttrs(ShareModes(share).0))
    ensures to != null && to != from && !ok ==>
            SameMeaning(old(from.tops), from.tops, from.maxLevel) && SameMeaning(old(to.tops), to.tops, from.maxLevel)
    ensures ok ==>
            && to != null
            && Rewritten(old(from.tops), from.tops, from.maxLevel, address, address + size,
                         ToAttrs(ShareModes(share).0))
            && Rewritten(old(to.tops), to.tops, from.maxLevel, address, address + size, ToAttrs(ShareModes(share).1))
  {
    hide RootOk, P.MPool.Valid, Tables, SameMeaning, Rewritten, RootUniform, Shareable, ShareModes, ModeOf;
    if to == null || to == from {
      return false, None;
    }
    TablesOf(from);
    TablesOf(to);
    SameAsItself(from.tops, from.maxLevel);
    SameAsItself(to.tops, to.maxLevel);
    var begin, end := address, address + size;
    var local := new P.MPool.WithFallback(fallback);
    var orig := CheckShare(to, from, begin, end, share);
    if orig.None? {
      local.Drop();
      return false, None;
    }
    ShareableAligned(share, from.tops, to.tops, from.maxLevel, begin, end);
    var plan := Plan(orig.value, ShareModes(share).0, ShareModes(share).1);
    ok, sent := MoveCleared(to, from, begin, end, plan, local, takes, clears, drain);
    local.Drop();
  }

  lemma ShareableAligned(share: HfShare, from: seq<Entry>, to: seq<Entry>, level: nat, begin: nat, end: nat)
    requires Tables(from, level) && Tables(to, level) && Shareable(share, from, to, level, begin, end)
    ensures begin % PAGE_SIZE == 0 && end % PAGE_SIZE == 0
  {
  }
}
