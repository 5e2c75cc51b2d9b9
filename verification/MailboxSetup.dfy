/** Setting up a VM's mailbox pages: three updates in a row, each of whose failure must undo the ones
    before it. */
module MailboxSetup {
  import opened Common
  import opened Geometry
  import opened Entries
  import opened Rollback
  import opened Footprint
  import opened Roots
  import opened Undo
  import opened Attributes
  import opened Encoding
  import opened Transfer
  import opened Sharing
  import PT = PageTable
  import P = MPool

  const SEND_MODE := Mode(true, true, false, false, false, true, true)
  const RECV_MODE := Mode(true, false, false, false, false, true, true)

  function PageOp(page: nat, mode: Mode): Op {
    Op(page, page + PAGE_SIZE, ToAttrs(mode), false)
  }

  predicate ValidOwnedExclusive(m: Mode) {
    !m.invalid && !m.unowned && !m.shared
  }

  // ---- Why the undo steps cannot fail --------------------------------------------------------

  /** Page `page` has been taken from its exclusive owner and nothing merged since: all tables needed to
      rewrite just this page exist. */
  ghost predicate Undoable(tops: seq<Entry>, level: nat, page: nat) {
    Tables(tops, level) && RootSolid(tops, level, page, page + PAGE_SIZE)
  }

  lemma TakenIsUndoable(tops: seq<Entry>, mid: seq<Entry>, fin: seq<Entry>, level: nat, page: nat, was: Mode,
                        mode: Mode, had: nat)
    requires Outcome(true, tops, mid, fin, level, PageOp(page, mode), had) && page % PAGE_SIZE == 0
    requires RootUniform(tops, level, page, page + PAGE_SIZE, ToAttrs(was)) && !was.unowned && mode.unowned
    ensures Undoable(fin, level, page)
  {
    hide RootUniform, RootSolid, RootNeed, RootSplit, RootCommit, Tables;
    SolidAfter(tops, mid, fin, level, PageOp(page, mode), had, ToAttrs(was));
    TablesAfter(true, tops, mid, fin, level, PageOp(page, mode), had);
  }

  lemma TablesAfter(ok: bool, tops: seq<Entry>, mid: seq<Entry>, fin: seq<Entry>, level: nat, op: Op, had: nat)
    requires Outcome(ok, tops, mid, fin, level, op, had)
    ensures Tables(fin, level) && Tables(tops, level)
  {
  }

  lemma StaysUndoable(ok: bool, tops: seq<Entry>, mid: seq<Entry>, fin: seq<Entry>, level: nat, page: nat, other: nat,
                      mode: Mode, had: nat)
    requires Outcome(ok, tops, mid, fin, level, PageOp(other, mode), had) && Undoable(tops, level, page)
    requires page % PAGE_SIZE == 0 && other % PAGE_SIZE == 0 && page != other
    ensures Undoable(fin, level, page)
  {
    hide RootSolid, RootNeed, RootSplit, RootCommit, WF;
    OutcomeKeepsSolid(ok, tops, mid, fin, level, PageOp(other, mode), had, page, page + PAGE_SIZE);
  }

  lemma UndoneAtOnce(ok: bool, tops: seq<Entry>, mid: seq<Entry>, fin: seq<Entry>, level: nat, page: nat, mode: Mode,
                     had: nat)
    requires Outcome(ok, tops, mid, fin, level, PageOp(page, mode), had) && Undoable(tops, level, page)
    ensures ok
  {
    hide RootSolid, RootNeed, RootSplit, RootCommit, WF;
    SolidRootNeedsNothing(tops, level, PageOp(page, mode));
  }

  lemma UndoneAfterDefrag(ok: bool, tops: seq<Entry>, defr: seq<Entry>, mid: seq<Entry>, fin: seq<Entry>, level: nat,
                          page: nat, mode: Mode, had: nat)
    requires Undoable(tops, level, page) && Tables(defr, level) && RootDefrag(tops, defr, level)
    requires CountFrom(tops, 0) <= had + CountFrom(defr, 0)
    requires Outcome(ok, defr, mid, fin, level, PageOp(page, mode), had)
    ensures ok
  {
    hide RootSolid, RootNeed, RootSplit, RootCommit, WF, RootDefrag, CountFrom;
    RootUndoNeeds(tops, defr, level, PageOp(page, mode), 0);
  }

  // ---- Meaning -------------------------------------------------------------------------------

  lemma SameTwice(x: seq<Entry>, y: seq<Entry>, z: seq<Entry>, level: nat)
    requires SameMeaning(x, y, level) && SameMeaning(y, z, level)
    ensures SameMeaning(x, z, level)
  {
    hide RawAt, WF, Norm;
  }

  lemma OtherPageUniform(tops: seq<Entry>, fin: seq<Entry>, level: nat, page: nat, other: nat, attrs: Attrs, was: Attrs)
    requires Rewritten(tops, fin, level, page, page + PAGE_SIZE, attrs) && page != other
    requires page % PAGE_SIZE == 0 && other % PAGE_SIZE == 0 && Tables(tops, level)
    requires RootUniform(tops, level, other, other + PAGE_SIZE, was)
    ensures Tables(fin, level) && RootUniform(fin, level, other, other + PAGE_SIZE, was)
  {
    hide RawAt, WF, Norm;
    forall a | other <= a < other + PAGE_SIZE && a < SpaceEnd(|fin|, level)
      ensures Norm(RawAt(fin, level, a)) == Some(was)
    {
      assert Norm(RawAt(tops, level, a)) == Some(was);
    }
  }

  /** Exactly the two mailbox pages have changed. */
  ghost predicate BothRewritten(tops: seq<Entry>, tops': seq<Entry>, level: nat, send: nat, recv: nat) {
    && Tables(tops, level) && Tables(tops', level) && |tops'| == |tops|
    && forall a: nat | a < SpaceEnd(|tops|, level) ::
         Norm(RawAt(tops', level, a)) ==
         if send <= a < send + PAGE_SIZE then Some(ToAttrs(SEND_MODE))
         else if recv <= a < recv + PAGE_SIZE then Some(ToAttrs(RECV_MODE))
         else Norm(RawAt(tops, level, a))
  }

  lemma BothAfter(tops: seq<Entry>, mid: seq<Entry>, fin: seq<Entry>, level: nat, send: nat, recv: nat)
    requires send % PAGE_SIZE == 0 && recv % PAGE_SIZE == 0 && send != recv
    requires Rewritten(tops, mid, level, send, send + PAGE_SIZE, ToAttrs(SEND_MODE))
    requires Rewritten(mid, fin, level, recv, recv + PAGE_SIZE, ToAttrs(RECV_MODE))
    ensures BothRewritten(tops, fin, level, send, recv)
  {
    hide RawAt, WF;
  }

  // ---- The calls -----------------------------------------------------------------------------

  datatype Steps = Steps(sent: Option<seq<Entry>>, both: Option<seq<Entry>>, back: Option<seq<Entry>>)

  /** The VM's table after each update of a setup: the send page taken, the receive page taken, and, if the
      setup failed after that, the receive page given back. */
  ghost predicate Stages(tops: seq<Entry>, level: nat, newSend: nat, newRecv: nat, st: Steps) {
    && (st.sent.Some? ==> Rewritten(tops, st.sent.value, level, newSend, newSend + PAGE_SIZE, ToAttrs(SEND_MODE)))
    && (st.both.Some? ==>
          && st.sent.Some?
          && Rewritten(st.sent.value, st.both.value, level, newRecv, newRecv + PAGE_SIZE, ToAttrs(RECV_MODE)))
    && (st.back.Some? ==> st.both.Some? && SameMeaning(st.sent.value, st.back.value, level))
  }

  lemma StagesAre(tops: seq<Entry>, level: nat, newSend: nat, newRecv: nat, st: Steps)
    requires st.sent.Some? ==> Rewritten(tops, st.sent.value, level, newSend, newSend + PAGE_SIZE, ToAttrs(SEND_MODE))
    requires st.both.Some? ==>
               && st.sent.Some?
               && Rewritten(st.sent.value, st.both.value, level, newRecv, newRecv + PAGE_SIZE, ToAttrs(RECV_MODE))
    requires st.back.Some? ==> st.both.Some? && SameMeaning(st.sent.value, st.back.value, level)
    ensures Stages(tops, level, newSend, newRecv, st)
  {
  }

  class Vm {
    const ptable: PT.PageTable

    // Addresses of the mailbox pages, 0 if not set up.
    var send: nat
    var recv: nat

    constructor (ptable: PT.PageTable)
      ensures this.ptable == ptable && !IsConfigured()
    {
      this.ptable, send, recv := ptable, 0, 0;
    }

    predicate IsConfigured()
      reads this
    {
      send != 0 && recv != 0
    }

    ghost predicate Ready(pool: P.MPool)
      reads this, ptable, pool, pool.Repr
    {
      ptable.Valid() && ptable.Ready(pool) && this !in pool.Repr
    }

    /** Every page that the table or the pool holds. */
    ghost function Held(pool: P.MPool): set<nat>
      reads ptable, pool
    {
      Total(ptable.Snap(pool))
    }

    method MapPage(page: nat, mode: Mode, pool: P.MPool) returns (ok: bool, ghost mid: seq<Entry>)
      requires Ready(pool) && page % PAGE_SIZE == 0 && page + PAGE_SIZE <= ptable.End()
      modifies ptable`store, ptable`tops, pool.Repr
      ensures Ready(pool) && Held(pool) == old(Held(pool))
      ensures Outcome(ok, old(ptable.tops), mid, ptable.tops, ptable.maxLevel, PageOp(page, mode), |old(pool.avail)|)
    {
      hide Updated, Outcome, RootOk, P.MPool.Valid, Total, PT.ClearPa;
      RequestIsRange(ptable, page, page + PAGE_SIZE, ToAttrs(mode));
      ghost var evs1, evs2;
      ok, mid, evs1, evs2 := ptable.IdentityMap(page, page + PAGE_SIZE, mode, pool);
      UpdatedOutcome(ok, old(ptable.Snap(pool)), ptable.Snap(pool), old(ptable.tops), mid, ptable.tops, ptable.maxLevel,
                     PageOp(page, mode), evs1, evs2);
    }

    method DefragAndInterrupt(pool: P.MPool, n: nat)
      requires Ready(pool) && pool.fallback != null
      modifies ptable`store, ptable`tops, pool.Repr
      ensures Ready(pool) && Held(pool) <= old(Held(pool))
      ensures Tables(old(ptable.tops), ptable.maxLevel) && Tables(ptable.tops, ptable.maxLevel)
      ensures RootDefrag(old(ptable.tops), ptable.tops, ptable.maxLevel)
      ensures CountFrom(old(ptable.tops), 0) <= |pool.avail| + CountFrom(ptable.tops, 0)
    {
      hide RootOk, P.MPool.Valid, RootDefrag, Tables, CountFrom, Balanced;
      ptable.Defrag(pool);
      pool.OthersTake(n);
      OwnIsAvailable(pool);
    }

    /** The update of the hypervisor's own table uses the pool. */
    method Taken(pool: P.MPool, n: nat)
      requires Ready(pool)
      modifies pool.Repr
      ensures Ready(pool) && Held(pool) <= old(Held(pool))
    {
      hide RootOk, P.MPool.Valid;
      pool.TakeAny(n);
    }

    /** The receive page could not be taken: gives the send page back. */
    method RestoreSend(page: nat, orig: Mode, local: P.MPool, n: nat, ghost tops: seq<Entry>, ghost fin: seq<Entry>)
      requires Ready(local) && local.fallback != null && page % PAGE_SIZE == 0 && page + PAGE_SIZE <= ptable.End()
      requires Undoable(ptable.tops, ptable.maxLevel, page) && Tables(tops, ptable.maxLevel)
      requires Rewritten(tops, fin, ptable.maxLevel, page, page + PAGE_SIZE, ToAttrs(SEND_MODE))
      requires SameMeaning(fin, ptable.tops, ptable.maxLevel)
      requires RootUniform(tops, ptable.maxLevel, page, page + PAGE_SIZE, ToAttrs(orig))
      modifies ptable`store, ptable`tops, local.Repr
      ensures Ready(local) && Held(local) <= old(Held(local)) && SameMeaning(tops, ptable.tops, ptable.maxLevel)
    {
      hide Held, RootOk, P.MPool.Valid, Outcome, RootDefrag, Tables, CountFrom, SameMeaning, Rewritten, RootUniform,
        Undoable;
      ghost var was := ptable.tops;
      DefragAndInterrupt(local, n);
      ghost var defr, had := ptable.tops, |local.avail|;
      DefragMeaning(was, defr, ptable.maxLevel);
      SameTwice(fin, was, defr, ptable.maxLevel);
      var ok;
      ghost var mid;
      ok, mid := MapPage(page, orig, local);
      UndoneAfterDefrag(ok, was, defr, mid, ptable.tops, ptable.maxLevel, page, orig, had);
      assert ok;
      OutcomeMeaning(ok, defr, mid, ptable.tops, ptable.maxLevel, PageOp(page, orig), had);
      WriteBack(tops, fin, defr, ptable.tops, ptable.maxLevel, page, page + PAGE_SIZE, ToAttrs(SEND_MODE),
                ToAttrs(orig));
    }

    /** The hypervisor's own table could not be updated: gives the receive page, then the send page back. */
    method RestoreBoth(send: nat, origSend: Mode, recv: nat, origRecv: Mode, local: P.MPool, ghost tops: seq<Entry>,
                       ghost fin1: seq<Entry>)
      returns (ghost back: seq<Entry>)
      requires Ready(local) && send % PAGE_SIZE == 0 && recv % PAGE_SIZE == 0 && send != recv
      requires send + PAGE_SIZE <= ptable.End() && recv + PAGE_SIZE <= ptable.End()
      requires Undoable(ptable.tops, ptable.maxLevel, send) && Undoable(ptable.tops, ptable.maxLevel, recv)
      requires Tables(tops, ptable.maxLevel) && Tables(fin1, ptable.maxLevel)
      requires Rewritten(tops, fin1, ptable.maxLevel, send, send + PAGE_SIZE, ToAttrs(SEND_MODE))
      requires Rewritten(fin1, ptable.tops, ptable.maxLevel, recv, recv + PAGE_SIZE, ToAttrs(RECV_MODE))
      requires RootUniform(tops, ptable.maxLevel, send, send + PAGE_SIZE, ToAttrs(origSend))
      requires RootUniform(fin1, ptable.maxLevel, recv, recv + PAGE_SIZE, ToAttrs(origRecv))
      modifies ptable`store, ptable`tops, local.Repr
      ensures SameMeaning(fin1, back, ptable.maxLevel)
      ensures Ready(local) && Held(local) <= old(Held(local)) && SameMeaning(tops, ptable.tops, ptable.maxLevel)
    {
      hide Held, RootOk, P.MPool.Valid, Outcome, Tables, SameMeaning, Rewritten, RootUniform, Undoable;
      ghost var fin2, had, level := ptable.tops, |local.avail|, ptable.maxLevel;
      TablesOf(ptable);
      SameAsItself(fin2, level);
      var ok;
      ghost var mid;
      ok, mid := MapPage(recv, origRecv, local);
      UndoneAtOnce(ok, fin2, mid, ptable.tops, level, recv, origRecv, had);
      assert ok;
      OutcomeMeaning(ok, fin2, mid, ptable.tops, level, PageOp(recv, origRecv), had);
      WriteBack(fin1, fin2, fin2, ptable.tops, level, recv, recv + PAGE_SIZE, ToAttrs(RECV_MODE), ToAttrs(origRecv));
      StaysUndoable(ok, fin2, mid, ptable.tops, level, send, recv, origRecv, had);
      ghost var fin3 := ptable.tops;
      back := fin3;
      had := |local.avail|;
      ok, mid := MapPage(send, origSend, local);
      UndoneAtOnce(ok, fin3, mid, ptable.tops, level, send, origSend, had);
      assert ok;
      OutcomeMeaning(ok, fin3, mid, ptable.tops, level, PageOp(send, origSend), had);
      WriteBack(tops, fin1, fin3, ptable.tops, level, send, send + PAGE_SIZE, ToAttrs(SEND_MODE), ToAttrs(origSend));
    }

    /** Takes both pages from the VM and makes them known to the hypervisor, or changes nothing. The
        hypervisor's own table is not modelled: updating it takes `takes` pages of the local pool and
        succeeds or fails as `stage1` says. */
    method ConfigurePages(newSend: nat, origSend: Mode, newRecv: nat, origRecv: Mode, local: P.MPool, takes: nat,
                          stage1: bool, n: nat)
      returns (ok: bool, ghost st: Steps)
      requires Ready(local) && local.fallback != null && newSend % PAGE_SIZE == 0 && newRecv % PAGE_SIZE == 0 &&
               newSend != newRecv
      requires newSend + PAGE_SIZE <= ptable.End() && newRecv + PAGE_SIZE <= ptable.End()
      requires Tables(ptable.tops, ptable.maxLevel) && !origSend.unowned && !origRecv.unowned
      requires RootUniform(ptable.tops, ptable.maxLevel, newSend, newSend + PAGE_SIZE, ToAttrs(origSend))
      requires RootUniform(ptable.tops, ptable.maxLevel, newRecv, newRecv + PAGE_SIZE, ToAttrs(origRecv))
      modifies this, ptable`store, ptable`tops, local.Repr
      ensures Ready(local) && Held(local) <= old(Held(local))
      ensures Stages(old(ptable.tops), ptable.maxLevel, newSend, newRecv, st)
      ensures if ok then st.both == Some(ptable.tops) && st.back.None? else st.both.Some? ==> st.back.Some?
      ensures ok ==>
                send == newSend && recv == newRecv &&
                BothRewritten(old(ptable.tops), ptable.tops, ptable.maxLevel, send, recv)
      ensures !ok ==>
                send == old(send) && recv == old(recv) && SameMeaning(old(ptable.tops), ptable.tops, ptable.maxLevel)
    {
      hide Held, RootOk, P.MPool.Valid, Outcome, Tables, SameMeaning, Rewritten, RootUniform, Undoable, BothRewritten,
        Stages;
      ghost var tops, had, level := ptable.tops, |local.avail|, ptable.maxLevel;
      ghost var mid;
      ok, mid := MapPage(newSend, SEND_MODE, local);
      ghost var fin1 := ptable.tops;
      OutcomeMeaning(ok, tops, mid, fin1, level, PageOp(newSend, SEND_MODE), had);
      if !ok {
        StagesAre(tops, level, newSend, newRecv, Steps(None, None, None));
        return false, Steps(None, None, None);
      }
      TakenIsUndoable(tops, mid, fin1, level, newSend, origSend, SEND_MODE, had);
      OtherPageUniform(tops, fin1, level, newSend, newRecv, ToAttrs(SEND_MODE), ToAttrs(origRecv));
      had := |local.avail|;
      ok, mid := MapPage(newRecv, RECV_MODE, local);
      ghost var fin2 := ptable.tops;
      OutcomeMeaning(ok, fin1, mid, fin2, level, PageOp(newRecv, RECV_MODE), had);
      StaysUndoable(ok, fin1, mid, fin2, level, newSend, newRecv, RECV_MODE, had);
      if !ok {
        RestoreSend(newSend, origSend, local, n, tops, fin1);
        StagesAre(tops, level, newSend, newRecv, Steps(Some(fin1), None, None));
        return false, Steps(Some(fin1), None, None);
      }
      TakenIsUndoable(fin1, mid, fin2, level, newRecv, origRecv, RECV_MODE, had);
      Taken(local, takes);
      if !stage1 {
        ghost var back := RestoreBoth(newSend, origSend, newRecv, origRecv, local, tops, fin1);
        StagesAre(tops, level, newSend, newRecv, Steps(Some(fin1), Some(fin2), Some(back)));
        return false, Steps(Some(fin1), Some(fin2), Some(back));
      }
      BothAfter(tops, fin1, fin2, level, newSend, newRecv);
      send, recv := newSend, newRecv;
      st := Steps(Some(fin1), Some(fin2), None);
      StagesAre(tops, level, newSend, newRecv, st);
    }

    /** Both pages are distinct, page-aligned and exclusively owned with the rights a mailbox needs. */
    ghost predicate Configurable(newSend: nat, newRecv: nat)
      requires Tables(ptable.tops, ptable.maxLevel)
      reads this, ptable
    {
      && newSend % PAGE_SIZE == 0 && newRecv % PAGE_SIZE == 0 && newSend != newRecv && !IsConfigured()
      && (var m := ModeOf(ptable.tops, ptable.maxLevel, newSend, newSend + PAGE_SIZE);
          m.Some? && ValidOwnedExclusive(m.value) && m.value.r && m.value.w)
      && (var m := ModeOf(ptable.tops, ptable.maxLevel, newRecv, newRecv + PAGE_SIZE);
          m.Some? && ValidOwnedExclusive(m.value) && m.value.r)
    }

    /** The mode of one page. */
    method PageMode(page: nat) returns (r: Option<Mode>)
      requires ptable.Valid() && page % PAGE_SIZE == 0
      ensures Tables(ptable.tops, ptable.maxLevel)
      ensures r == ModeOf(ptable.tops, ptable.maxLevel, page, page + PAGE_SIZE)
      ensures r.Some? ==> page + PAGE_SIZE <= ptable.End()
      ensures r.Some? && ValidOwnedExclusive(r.value) ==>
              RootUniform(ptable.tops, ptable.maxLevel, page, page + PAGE_SIZE, ToAttrs(r.value))
    {
      hide RootOk, UniformRaw, Tables, FromRaw, RootUniform;
      assert RoundDownToPage(page) == page && RoundUpToPage(page + PAGE_SIZE) == page + PAGE_SIZE;
      var mode;
      ghost var raw;
      mode, raw := ptable.GetMode(page, page + PAGE_SIZE);
      if mode.Err? {
        return None;
      }
      ModeIs(ptable.tops, ptable.maxLevel, page, page + PAGE_SIZE, raw);
      RangeOf(ptable.tops, ptable.maxLevel, page, page + PAGE_SIZE, raw);
      if ValidOwnedExclusive(mode.value) {
        ReadBack(ptable.tops, ptable.maxLevel, page, page + PAGE_SIZE, raw);
      }
      r := Some(mode.value);
    }

    /** Sets up the mailbox, once. */
    method Configure(newSend: nat, newRecv: nat, fallback: P.MPool, takes: nat, stage1: bool, n: nat)
      returns (ok: bool, ghost st: Steps)
      requires Ready(fallback)
      modifies this, ptable`store, ptable`tops, fallback.Repr
      ensures Ready(fallback) && Held(fallback) <= old(Held(fallback)) && Tables(old(ptable.tops), ptable.maxLevel)
      ensures Stages(old(ptable.tops), ptable.maxLevel, newSend, newRecv, st)
      ensures if ok then st.both == Some(ptable.tops) && st.back.None? else st.both.Some? ==> st.back.Some?
      ensures st.sent.Some? ==> old(Configurable(newSend, newRecv))
      ensures ok ==> old(Configurable(newSend, newRecv)) && send == newSend && recv == newRecv
      ensures ok ==> BothRewritten(old(ptable.tops), ptable.tops, ptable.maxLevel, newSend, newRecv)
      ensures !ok ==>
                send == old(send) && recv == old(recv) && SameMeaning(old(ptable.tops), ptable.tops, ptable.maxLevel)
      ensures !old(Configurable(newSend, newRecv)) ==> ptable.tops == old(ptable.tops)
    {
      hide RootOk, Rewritten, P.MPool.Valid, Tables, SameMeaning, RootUniform, BothRewritten, ModeOf;
      TablesOf(ptable);
      SameAsItself(ptable.tops, ptable.maxLevel);
      if newSend % PAGE_SIZE != 0 || newRecv % PAGE_SIZE != 0 || newSend == newRecv || IsConfigured() {
        return false, Steps(None, None, None);
      }
      var origSend := PageMode(newSend);
      if origSend.None? || !(ValidOwnedExclusive(origSend.value) && origSend.value.r && origSend.value.w) {
        return false, Steps(None, None, None);
      }
      var origRecv := PageMode(newRecv);
      if origRecv.None? || !(ValidOwnedExclusive(origRecv.value) && origRecv.value.r) {
        return false, Steps(None, None, None);
      }
      var local := new P.MPool.WithFallback(fallback);
      ok, st := ConfigurePages(newSend, origSend.value, newRecv, origRecv.value, local, takes, stage1, n);
      local.Drop();
    }
  }
}
