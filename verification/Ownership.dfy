/** Who may own and access a page of memory: the protocol that donate, lend, relinquish, give, share
    and mailbox setup follow, as steps of many CPUs. A transfer first takes pages from the sender and
    then hands them to the recipient, or gives them back; other VMs' transfers may run in between. */
module Ownership {
  import opened Entries

  // ---- States --------------------------------------------------------------------------------

  /** The (valid, owned, exclusive) state of a page for one VM. */
  datatype PageState =
    | NoAccess            // !V !O: unrelated to the VM
    | OwnerExclusive      //  V  O  X
    | OwnerShared         //  V  O !X
    | OwnerLent           // !V  O  X
    | OwnerUnused         // !V  O !X: never used
    | BorrowerExclusive   //  V !O  X
    | BorrowerShared      //  V !O !X

  function StateOf(invalid: bool, unowned: bool, shared: bool): PageState {
    if invalid then
      if unowned then NoAccess else if shared then OwnerUnused else OwnerLent
    else if unowned then
      if shared then BorrowerShared else BorrowerExclusive
    else
      if shared then OwnerShared else OwnerExclusive
  }

  /** The state that a descriptor's attributes stand for. */
  function StateAt(raw: Raw): PageState {
    if raw.None? then NoAccess else StateOf(raw.value.invalid, raw.value.unowned, raw.value.shared)
  }

  predicate Owns(s: PageState) {
    s.OwnerExclusive? || s.OwnerShared? || s.OwnerLent? || s.OwnerUnused?
  }

  predicate CanAccess(s: PageState) {
    s.OwnerExclusive? || s.OwnerShared? || s.BorrowerExclusive? || s.BorrowerShared?
  }

  predicate Exclusive(s: PageState) {
    s.OwnerExclusive? || s.BorrowerExclusive?
  }

  // ---- Transfers -----------------------------------------------------------------------------

  /** Sender and recipient states before and after a transfer. */
  datatype Row = Row(from: PageState, to: PageState, from': PageState, to': PageState)

  /** The transfers that the sharing calls may carry out when the recipient's state is known: owner to
      stranger (donate or give, lend exclusively, share), and owner and borrower to one owner. */
  predicate LegalRow(r: Row) {
    || r == Row(OwnerExclusive, NoAccess, NoAccess, OwnerExclusive)
    || r == Row(OwnerExclusive, NoAccess, OwnerLent, BorrowerExclusive)
    || r == Row(OwnerExclusive, NoAccess, OwnerShared, BorrowerShared)
    || r == Row(OwnerLent, BorrowerExclusive, NoAccess, OwnerExclusive)
    || r == Row(OwnerShared, BorrowerShared, NoAccess, OwnerExclusive)
    || r == Row(BorrowerExclusive, OwnerLent, NoAccess, OwnerExclusive)
    || r == Row(BorrowerShared, OwnerShared, NoAccess, OwnerExclusive)
  }

  type View = nat -> PageState

  /** A call that holds VM locks: a transfer of pages `[lo, hi)` whose sender has been updated, or a
      mailbox setup whose send page, or both of whose pages, have been updated. */
  datatype Flight =
    | Move(from: nat, to: nat, lo: nat, hi: nat, row: Row)
    | Setup(vm: nat, send: nat, recv: nat, both: bool)

  datatype System = System(views: seq<View>, flights: set<Flight>)

  predicate Locks(f: Flight, v: nat) {
    if f.Move? then v == f.from || v == f.to else v == f.vm
  }

  ghost predicate Free(s: System, v: nat) {
    v < |s.views| && forall f | f in s.flights :: !Locks(f, v)
  }

  /** Only VM `v`'s pages that satisfy `where` change, all to state `st`. */
  ghost predicate Sets(s: System, s': System, v: nat, where: nat -> bool, st: PageState) {
    && |s'.views| == |s.views| && v < |s.views|
    && (forall w, p {:trigger s'.views[w](p)} | 0 <= w < |s.views| ::
          s'.views[w](p) == if w == v && where(p) then st else s.views[w](p))
  }

  function In(lo: nat, hi: nat): nat -> bool {
    p => lo <= p < hi
  }

  function Only(page: nat): nat -> bool {
    p => p == page
  }

  // ---- Steps ---------------------------------------------------------------------------------

  /** What a sharing call has checked about one page before it starts. The older share call does not
      look at the recipient when the sender is the exclusive owner, and checks no more than that the
      recipient owns the page when a borrower gives it back. */
  predicate Guard(row: Row, from: PageState, to: PageState) {
    && LegalRow(row) && from == row.from
    && (from.OwnerExclusive? || to == row.to || (!Owns(from) && Owns(to)))
  }

  /** The sender's pages are taken. */
  ghost predicate Start(s: System, s': System, f: Flight) {
    && f.Move? && f.from != f.to && Free(s, f.from) && Free(s, f.to)
    && (forall p | f.lo <= p < f.hi :: Guard(f.row, s.views[f.from](p), s.views[f.to](p)))
    && Sets(s, s', f.from, In(f.lo, f.hi), f.row.from')
    && s'.flights == s.flights + {f}
  }

  /** The recipient gets the pages. */
  ghost predicate Finish(s: System, s': System, f: Flight) {
    && f in s.flights && f.Move?
    && Sets(s, s', f.to, In(f.lo, f.hi), f.row.to')
    && s'.flights == s.flights - {f}
  }

  /** The recipient could not be updated and the sender gets its pages back. */
  ghost predicate Undo(s: System, s': System, f: Flight) {
    && f in s.flights && f.Move?
    && Sets(s, s', f.from, In(f.lo, f.hi), f.row.from)
    && s'.flights == s.flights - {f}
  }

  ghost predicate SetupStart(s: System, s': System, f: Flight) {
    && f.Setup? && !f.both && Free(s, f.vm) && f.send != f.recv
    && s.views[f.vm](f.send).OwnerExclusive? && s.views[f.vm](f.recv).OwnerExclusive?
    && Sets(s, s', f.vm, Only(f.send), BorrowerShared)
    && s'.flights == s.flights + {f}
  }

  /** The receive page is taken too, or given back. */
  ghost predicate SetupTurn(s: System, s': System, f: Flight) {
    && f in s.flights && f.Setup?
    && Sets(s, s', f.vm, Only(f.recv), if f.both then OwnerExclusive else BorrowerShared)
    && s'.flights == s.flights - {f} + {f.(both := !f.both)}
  }

  ghost predicate SetupFinish(s: System, s': System, f: Flight) {
    && f in s.flights && f.Setup? && f.both && SameViews(s, s')
    && s'.flights == s.flights - {f}
  }

  ghost predicate SetupUndo(s: System, s': System, f: Flight) {
    && f in s.flights && f.Setup? && !f.both
    && Sets(s, s', f.vm, Only(f.send), OwnerExclusive)
    && s'.flights == s.flights - {f}
  }

  ghost predicate SameViews(s: System, s': System) {
    && |s'.views| == |s.views|
    && forall w, p {:trigger s'.views[w](p)} | 0 <= w < |s.views| :: s'.views[w](p) == s.views[w](p)
  }

  ghost predicate Step(s: System, s': System, f: Flight) {
    || Start(s, s', f) || Finish(s, s', f) || Undo(s, s', f)
    || SetupStart(s, s', f) || SetupTurn(s, s', f) || SetupFinish(s, s', f) || SetupUndo(s, s', f)
  }

  // ---- Invariant -----------------------------------------------------------------------------

  /** What a page is used for when no call is working on it. */
  datatype Use =
    | Unrelated
    | Owned(owner: nat)
    | Shared(owner: nat, borrower: nat)
    | Lent(owner: nat, borrower: nat)
    | Mailbox(vm: nat)

  predicate WFUse(u: Use) {
    (u.Shared? || u.Lent?) ==> u.owner != u.borrower
  }

  function StateIn(u: Use, v: nat): PageState {
    match u
    case Unrelated => NoAccess
    case Owned(o) => if v == o then OwnerExclusive else NoAccess
    case Shared(o, b) => if v == o then OwnerShared else if v == b then BorrowerShared else NoAccess
    case Lent(o, b) => if v == o then OwnerLent else if v == b then BorrowerExclusive else NoAccess
    case Mailbox(m) => if v == m then BorrowerShared else NoAccess
  }

  predicate Covers(f: Flight, p: nat) {
    if f.Move? then f.lo <= p < f.hi else p == f.send || p == f.recv
  }

  /** The state of VM `v` for a page of use `u` that call `f` is working on. */
  function Pending(u: Use, f: Flight, p: nat, v: nat): PageState {
    if f.Move? then
      if v == f.from then f.row.from' else StateIn(u, v)
    else
      if v == f.vm && (p == f.send || (f.both && p == f.recv)) then BorrowerShared else StateIn(u, v)
  }

  /** Call `f` found the page in use `u`. */
  predicate Fits(u: Use, f: Flight) {
    if f.Move? then
      f.from != f.to && LegalRow(f.row) && StateIn(u, f.from) == f.row.from && StateIn(u, f.to) == f.row.to
    else
      f.send != f.recv && u == Owned(f.vm)
  }

  /** Page `p` has use `u`, apart from what the calls in progress have changed already. */
  ghost predicate Used(s: System, p: nat, u: Use) {
    && WFUse(u)
    && (forall f | f in s.flights && Covers(f, p) :: Fits(u, f))
    && (forall v | 0 <= v < |s.views| :: UsedBy(s, p, u, v))
  }

  ghost predicate UsedBy(s: System, p: nat, u: Use, v: nat)
    requires v < |s.views|
  {
    && (forall f | f in s.flights && Covers(f, p) && Locks(f, v) :: s.views[v](p) == Pending(u, f, p, v))
    && ((forall f | f in s.flights && Covers(f, p) :: !Locks(f, v)) ==> s.views[v](p) == StateIn(u, v))
  }

  /** No two calls hold the lock of the same VM, and every page has a use. */
  ghost predicate Inv(s: System) {
    && LocksHeld(s)
    && (forall p {:trigger HasUse(s, p)} | 0 <= p :: HasUse(s, p))
  }

  ghost predicate LocksHeld(s: System) {
    && (forall f, v {:trigger Locks(f, v)} | f in s.flights && 0 <= v && Locks(f, v) :: v < |s.views|)
    && (forall f, g, v {:trigger Locks(f, v), Locks(g, v)} | f in s.flights && g in s.flights && 0 <= v &&
        Locks(f, v) && Locks(g, v) :: f == g)
  }

  ghost predicate HasUse(s: System, p: nat) {
    exists u :: Used(s, p, u)
  }

  // ---- Every step keeps it -------------------------------------------------------------------

  /** The VMs related to a page that a call works on are locked by that call. */
  lemma StrangersHaveNoAccess(u: Use, f: Flight, v: nat)
    requires WFUse(u) && Fits(u, f) && !Locks(f, v)
    ensures StateIn(u, v).NoAccess?
  {
  }

  /** So at most one call works on a page. */
  lemma OneFlight(s: System, p: nat, u: Use, f: Flight, g: Flight)
    requires LocksHeld(s) && Used(s, p, u) && f in s.flights && g in s.flights && Covers(f, p) && Covers(g, p)
    ensures f == g
  {
    var v := if g.Move? then g.from else g.vm;
    assert Locks(g, v) && Fits(u, g);
    if !Locks(f, v) { StrangersHaveNoAccess(u, f, v); }
  }

  /** The use of a page after call `f` has succeeded. */
  function UseAfter(f: Flight): Use {
    if f.Setup? then Mailbox(f.vm)
    else match f.row.to'
      case BorrowerExclusive => Lent(f.from, f.to)
      case BorrowerShared => Shared(f.from, f.to)
      case _ => Owned(f.to)
  }

  lemma StateAfter(u: Use, f: Flight, v: nat)
    requires WFUse(u) && Fits(u, f) && f.Move?
    ensures WFUse(UseAfter(f))
    ensures StateIn(UseAfter(f), v) ==
            if v == f.to then f.row.to' else if v == f.from then f.row.from' else StateIn(u, v)
  {
  }

  lemma StartUse(s: System, s': System, f: Flight, p: nat, u: Use)
    requires LocksHeld(s) && LocksHeld(s') && Start(s, s', f) && Used(s, p, u)
    ensures Used(s', p, u)
  {
    assert UsedBy(s, p, u, f.from) && UsedBy(s, p, u, f.to);
    if Covers(f, p) {
      assert Guard(f.row, s.views[f.from](p), s.views[f.to](p));
      forall g | g in s.flights && Covers(g, p) ensures false {
        StrangersHaveNoAccess(u, g, f.from);
      }
    }
    forall v | 0 <= v < |s'.views| ensures UsedBy(s', p, u, v) {
      assert UsedBy(s, p, u, v);
    }
  }

  lemma SetupStartUse(s: System, s': System, f: Flight, p: nat, u: Use)
    requires LocksHeld(s) && LocksHeld(s') && SetupStart(s, s', f) && Used(s, p, u)
    ensures Used(s', p, u)
  {
    assert UsedBy(s, p, u, f.vm);
    if Covers(f, p) {
      forall g | g in s.flights && Covers(g, p) ensures false {
        StrangersHaveNoAccess(u, g, f.vm);
      }
    }
    forall v | 0 <= v < |s'.views| ensures UsedBy(s', p, u, v) {
      assert UsedBy(s, p, u, v);
    }
  }

  /** A finished or undone call leaves no call working on the page. */
  lemma EndUse(s: System, s': System, f: Flight, p: nat, u: Use, u': Use)
    requires LocksHeld(s) && Used(s, p, u) && WFUse(u') && f in s.flights && s'.flights == s.flights - {f}
    requires |s'.views| == |s.views| && Covers(f, p)
    requires forall v | 0 <= v < |s.views| :: s'.views[v](p) == StateIn(u', v)
    ensures Used(s', p, u')
  {
    forall g | g in s'.flights && Covers(g, p) ensures false {
      OneFlight(s, p, u, f, g);
    }
  }

  /** A page that the call does not work on keeps its use. */
  lemma OtherUse(s: System, s': System, f: Flight, p: nat, u: Use)
    requires Used(s, p, u) && f in s.flights && s'.flights == s.flights - {f} && !Covers(f, p)
    requires |s'.views| == |s.views|
    requires forall v | 0 <= v < |s.views| :: s'.views[v](p) == s.views[v](p)
    ensures Used(s', p, u)
  {
    forall v | 0 <= v < |s'.views| ensures UsedBy(s', p, u, v) {
      assert UsedBy(s, p, u, v);
    }
  }

  lemma FinishUse(s: System, s': System, f: Flight, p: nat, u: Use)
    requires LocksHeld(s) && Used(s, p, u) && (Finish(s, s', f) || Undo(s, s', f))
    ensures HasUse(s', p)
  {
    if Covers(f, p) {
      var u' := if Finish(s, s', f) then UseAfter(f) else u;
      forall v | 0 <= v < |s.views| ensures s'.views[v](p) == StateIn(u', v) && WFUse(u') {
        assert UsedBy(s, p, u, v);
        StateAfter(u, f, v);
        forall g | g in s.flights && Covers(g, p) ensures g == f { OneFlight(s, p, u, f, g); }
      }
      assert WFUse(u') by { StateAfter(u, f, 0); }
      EndUse(s, s', f, p, u, u');
    } else {
      OtherUse(s, s', f, p, u);
    }
  }

  lemma SetupEndUse(s: System, s': System, f: Flight, p: nat, u: Use)
    requires LocksHeld(s) && Used(s, p, u) && (SetupFinish(s, s', f) || SetupUndo(s, s', f))
    ensures HasUse(s', p)
  {
    if Covers(f, p) {
      var u' := if SetupFinish(s, s', f) then Mailbox(f.vm) else u;
      forall v | 0 <= v < |s.views| ensures s'.views[v](p) == StateIn(u', v) {
        assert UsedBy(s, p, u, v);
        forall g | g in s.flights && Covers(g, p) ensures g == f { OneFlight(s, p, u, f, g); }
      }
      EndUse(s, s', f, p, u, u');
    } else {
      OtherUse(s, s', f, p, u);
    }
  }

  lemma TurnUse(s: System, s': System, f: Flight, p: nat, u: Use)
    requires LocksHeld(s) && Used(s, p, u) && SetupTurn(s, s', f)
    ensures Used(s', p, u)
  {
    var g := f.(both := !f.both);
    forall h | h in s'.flights && Covers(h, p) ensures Fits(u, h) {
      if h == g { assert Covers(f, p); }
    }
    forall v | 0 <= v < |s'.views| ensures UsedBy(s', p, u, v) {
      assert UsedBy(s, p, u, v);
      if Covers(f, p) {
        forall h | h in s.flights && Covers(h, p) ensures h == f { OneFlight(s, p, u, f, h); }
      } else {
        assert forall h | h in s'.flights && Covers(h, p) :: h in s.flights;
        assert forall h | h in s.flights && Covers(h, p) :: h in s'.flights;
      }
    }
  }

  lemma StepLocks(s: System, s': System, f: Flight)
    requires LocksHeld(s) && Step(s, s', f)
    ensures LocksHeld(s')
  {
    if SetupTurn(s, s', f) { TurnLocks(s, s', f); }
  }

  lemma TurnLocks(s: System, s': System, f: Flight)
    requires LocksHeld(s) && SetupTurn(s, s', f)
    ensures LocksHeld(s')
  {
    var g := f.(both := !f.both);
    forall h, v | h in s'.flights && 0 <= v && Locks(h, v) ensures v < |s'.views| {
      assert Locks(if h == g then f else h, v);
    }
    forall h, k, v | h in s'.flights && k in s'.flights && 0 <= v && Locks(h, v) && Locks(k, v) ensures h == k {
      assert Locks(if h == g then f else h, v) && Locks(if k == g then f else k, v);
    }
  }

  /** Every step of every call keeps every page in a proper use, whatever the other calls do. */
  lemma StepKeepsInv(s: System, s': System, f: Flight)
    requires Inv(s) && Step(s, s', f)
    ensures Inv(s')
  {
    hide Start, Finish, Undo, SetupStart, SetupTurn, SetupFinish, SetupUndo, LocksHeld, Used;
    StepLocks(s, s', f);
    forall p: nat ensures HasUse(s', p) {
      assert HasUse(s, p);
      var u :| Used(s, p, u);
      if Start(s, s', f) { StartUse(s, s', f, p, u); }
      else if SetupStart(s, s', f) { SetupStartUse(s, s', f, p, u); }
      else if SetupTurn(s, s', f) { TurnUse(s, s', f, p, u); }
      else if Finish(s, s', f) || Undo(s, s', f) { FinishUse(s, s', f, p, u); }
      else { SetupEndUse(s, s', f, p, u); }
    }
  }

  // ---- Runs ----------------------------------------------------------------------------------

  ghost predicate Run(run: seq<System>) {
    |run| > 0 && forall i | 0 <= i < |run| - 1 :: StepAt(run, i)
  }

  ghost predicate StepAt(run: seq<System>, i: nat)
    requires i + 1 < |run|
  {
    Next(run[i], run[i + 1])
  }

  ghost predicate Next(s: System, s': System) {
    exists f :: Step(s, s', f)
  }

  /** The state after boot: no call in progress, no VM related to memory it does not own exclusively,
      and no page owned twice. */
  ghost predicate Initial(s: System) {
    && s.flights == {}
    && (forall p, v {:trigger s.views[v](p)} | 0 <= p && 0 <= v < |s.views| ::
          s.views[v](p).NoAccess? || s.views[v](p).OwnerExclusive?)
    && (forall p, v, w {:trigger s.views[v](p), s.views[w](p)} | 0 <= p && 0 <= v < |s.views| && 0 <= w < |s.views| &&
        v != w ::
          s.views[v](p).NoAccess? || s.views[w](p).NoAccess?)
  }

  lemma InitialInv(s: System)
    requires Initial(s)
    ensures Inv(s)
  {
    forall p: nat ensures HasUse(s, p) {
      if v :| 0 <= v < |s.views| && !s.views[v](p).NoAccess? {
        assert Used(s, p, Owned(v));
      } else {
        assert Used(s, p, Unrelated);
      }
    }
  }

  lemma {:induction false} RunKeepsInv(run: seq<System>, i: nat)
    requires Run(run) && Initial(run[0]) && i < |run|
    ensures Inv(run[i])
    decreases i
  {
    if i == 0 {
      InitialInv(run[0]);
    } else {
      RunKeepsInv(run, i - 1);
      var j := i - 1;
      assert StepAt(run, j);
      var f :| Step(run[j], run[j + 1], f);
      StepKeepsInv(run[j], run[i], f);
    }
  }

  /** Whenever no call is working on a page, the page is unrelated to all VMs, exclusively owned by one,
      shared by its owner with one borrower, lent to one exclusive borrower, or a mailbox page. */
  lemma EveryPageHasOneUse(run: seq<System>, i: nat, p: nat)
    requires Run(run) && Initial(run[0]) && i < |run| && forall f | f in run[i].flights :: !Covers(f, p)
    ensures exists u :: WFUse(u) && forall v | 0 <= v < |run[i].views| :: run[i].views[v](p) == StateIn(u, v)
  {
    RunKeepsInv(run, i);
    assert HasUse(run[i], p);
    var u :| Used(run[i], p, u);
    forall v | 0 <= v < |run[i].views| ensures run[i].views[v](p) == StateIn(u, v) {
      AtRest(run[i], p, u, v);
    }
  }

  /** In every reachable state, even in the middle of transfers: a page has at most one owner, whoever
      has exclusive access is alone, at most two VMs have access, and the unused state is unused. */
  lemma NoSecondOwner(run: seq<System>, i: nat, p: nat, v: nat, w: nat)
    requires Run(run) && Initial(run[0]) && i < |run| && v < |run[i].views| && w < |run[i].views| && v != w
    ensures !(Owns(run[i].views[v](p)) && Owns(run[i].views[w](p)))
    ensures Exclusive(run[i].views[v](p)) ==> !CanAccess(run[i].views[w](p))
    ensures !run[i].views[v](p).OwnerUnused?
  {
    RunKeepsInv(run, i);
    var s := run[i];
    assert HasUse(s, p);
    var u :| Used(s, p, u);
    assert UsedBy(s, p, u, v) && UsedBy(s, p, u, w);
    TwoStates(s, p, u, v, w);
  }

  lemma TwoStates(s: System, p: nat, u: Use, v: nat, w: nat)
    requires LocksHeld(s) && Used(s, p, u) && v < |s.views| && w < |s.views| && v != w
    ensures !(Owns(s.views[v](p)) && Owns(s.views[w](p)))
    ensures Exclusive(s.views[v](p)) ==> !CanAccess(s.views[w](p))
    ensures !s.views[v](p).OwnerUnused?
  {
    assert UsedBy(s, p, u, v) && UsedBy(s, p, u, w);
    if f :| f in s.flights && Covers(f, p) {
      forall g | g in s.flights && Covers(g, p) ensures g == f { OneFlight(s, p, u, f, g); }
      if !Locks(f, v) { StrangersHaveNoAccess(u, f, v); }
      if !Locks(f, w) { StrangersHaveNoAccess(u, f, w); }
    }
  }

  lemma NoThirdParty(run: seq<System>, i: nat, p: nat, v: nat, w: nat, x: nat)
    requires Run(run) && Initial(run[0]) && i < |run| && v < |run[i].views| && w < |run[i].views| && x < |run[i].views|
    requires v != w && v != x && w != x
    ensures !(CanAccess(run[i].views[v](p)) && CanAccess(run[i].views[w](p)) && CanAccess(run[i].views[x](p)))
  {
    hide Used, LocksHeld, StateIn, Run, Initial;
    RunKeepsInv(run, i);
    var s := run[i];
    assert HasUse(s, p);
    var u :| Used(s, p, u);
    if f :| f in s.flights && Covers(f, p) {
      var y := if !Locks(f, v) then v else if !Locks(f, w) then w else x;
      Stranger(s, p, u, f, y);
    } else {
      AtRest(s, p, u, v);
      AtRest(s, p, u, w);
      AtRest(s, p, u, x);
      AtMostTwo(u, v, w, x);
    }
  }

  lemma AtRest(s: System, p: nat, u: Use, v: nat)
    requires Used(s, p, u) && v < |s.views| && forall f | f in s.flights :: !Covers(f, p)
    ensures s.views[v](p) == StateIn(u, v)
  {
    assert UsedBy(s, p, u, v);
  }

  lemma AtMostTwo(u: Use, v: nat, w: nat, x: nat)
    requires v != w && v != x && w != x
    ensures !(CanAccess(StateIn(u, v)) && CanAccess(StateIn(u, w)) && CanAccess(StateIn(u, x)))
  {
  }

  lemma Stranger(s: System, p: nat, u: Use, f: Flight, v: nat)
    requires LocksHeld(s) && Used(s, p, u) && f in s.flights && Covers(f, p) && v < |s.views| && !Locks(f, v)
    ensures s.views[v](p).NoAccess?
  {
    assert UsedBy(s, p, u, v);
    forall g | g in s.flights && Covers(g, p) ensures g == f { OneFlight(s, p, u, f, g); }
    StrangersHaveNoAccess(u, f, v);
  }
}
