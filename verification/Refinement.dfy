/** Real page tables follow the ownership protocol: each update that a sharing call or a mailbox setup makes,
    or takes back, is a protocol step, whatever other calls are in flight. */
module Refinement {
  import opened Common
  import opened Geometry
  import opened Entries
  import opened Roots
  import opened Attributes
  import opened Encoding
  import opened Ownership
  import opened Transitions
  import opened Transfer
  import opened Sharing
  import opened MailboxSetup

  // ---- From tables to page states ------------------------------------------------------------

  ghost function PageView(tops: seq<Entry>, level: nat, p: nat): PageState
    requires Tables(tops, level)
  {
    if p * PAGE_SIZE < SpaceEnd(|tops|, level) then StateAt(Norm(RawAt(tops, level, p * PAGE_SIZE))) else NoAccess
  }

  ghost function ViewOf(tops: seq<Entry>, level: nat): View
    requires Tables(tops, level)
  {
    (p: nat) => PageView(tops, level, p)
  }

  /** The page tables of all VMs, which have the same shape. */
  ghost predicate World(all: seq<seq<Entry>>, level: nat) {
    forall v | 0 <= v < |all| :: Tables(all[v], level) && |all[v]| == |all[0]|
  }

  /** The tables of all VMs and the calls in flight. */
  datatype Machine = Machine(all: seq<seq<Entry>>, flights: set<Flight>)

  ghost function AbsIn(m: Machine, level: nat): System
    requires World(m.all, level)
  {
    System(seq(|m.all|, v requires 0 <= v < |m.all| => ViewOf(m.all[v], level)), m.flights)
  }

  ghost function Abs(all: seq<seq<Entry>>, level: nat): System
    requires World(all, level)
  {
    AbsIn(Machine(all, {}), level)
  }

  lemma NormState(raw: Raw)
    ensures StateAt(Norm(raw)) == StateAt(raw) == ModeState(FromRaw(raw))
  {
  }

  lemma AttrsState(mode: Mode)
    ensures StateAt(Norm(Some(ToAttrs(mode)))) == ModeState(mode)
  {
  }

  lemma RewrittenView(tops: seq<Entry>, tops': seq<Entry>, level: nat, lo: nat, hi: nat, mode: Mode, p: nat)
    requires Rewritten(tops, tops', level, lo * PAGE_SIZE, hi * PAGE_SIZE, ToAttrs(mode)) &&
             hi * PAGE_SIZE <= SpaceEnd(|tops|, level)
    ensures PageView(tops', level, p) == if lo <= p < hi then ModeState(mode) else PageView(tops, level, p)
  {
    hide RawAt, WF, Norm, StateAt, ModeState;
    AttrsState(mode);
  }

  lemma UniformView(tops: seq<Entry>, level: nat, lo: nat, hi: nat, raw: Raw, p: nat)
    requires Tables(tops, level) && UniformRaw(tops, level, lo * PAGE_SIZE, hi * PAGE_SIZE, raw) && lo <= p < hi
    ensures PageView(tops, level, p) == ModeState(FromRaw(raw))
  {
    hide RawAt, WF, Norm, StateAt, ModeState, FromRaw;
    NormState(raw);
  }

  lemma SameView(tops: seq<Entry>, tops': seq<Entry>, level: nat, p: nat)
    requires SameMeaning(tops, tops', level)
    ensures PageView(tops', level, p) == PageView(tops, level, p)
  {
    hide RawAt, WF, Norm, StateAt;
  }

  // ---- Updates -------------------------------------------------------------------------------

  /** Pages `[lo, hi)` have got state `st` and all others are as they were. */
  ghost predicate Repaged(tops: seq<Entry>, tops': seq<Entry>, level: nat, lo: nat, hi: nat, st: PageState) {
    && Tables(tops, level) && Tables(tops', level) && |tops'| == |tops|
    && forall p: nat :: PageView(tops', level, p) == if lo <= p < hi then st else PageView(tops, level, p)
  }

  lemma RewrittenRepages(tops: seq<Entry>, tops': seq<Entry>, level: nat, lo: nat, hi: nat, mode: Mode)
    requires Rewritten(tops, tops', level, lo * PAGE_SIZE, hi * PAGE_SIZE, ToAttrs(mode)) &&
             hi * PAGE_SIZE <= SpaceEnd(|tops|, level)
    ensures Repaged(tops, tops', level, lo, hi, ModeState(mode))
  {
    hide PageView, ModeState, RawAt;
    forall p: nat
      ensures PageView(tops', level, p) == if lo <= p < hi then ModeState(mode) else PageView(tops, level, p)
    {
      RewrittenView(tops, tops', level, lo, hi, mode, p);
    }
  }

  /** Going back to the meaning before an update takes the pages back. */
  lemma BackRepages(tops: seq<Entry>, mid: seq<Entry>, tops': seq<Entry>, level: nat, lo: nat, hi: nat, st: PageState,
                    was: PageState)
    requires Repaged(tops, mid, level, lo, hi, st) && SameMeaning(tops, tops', level)
    requires forall p: nat | lo <= p < hi :: PageView(tops, level, p) == was
    ensures Repaged(mid, tops', level, lo, hi, was)
  {
    hide PageView, RawAt;
    forall p: nat ensures PageView(tops', level, p) == if lo <= p < hi then was else PageView(mid, level, p) {
      SameView(tops, tops', level, p);
    }
  }

  // ---- Checks --------------------------------------------------------------------------------

  /** A sharing call on page numbers. */
  datatype Call =
    | Message(from: nat, to: nat, lo: nat, hi: nat, share: MemoryShare, access: Access, plan: Plan)
    | OldShare(from: nat, to: nat, lo: nat, hi: nat, hf: HfShare)

  /** The transfer that an allowed older share call makes. */
  function ShareRow(hf: HfShare, orig: Mode): Row {
    var (f, t) := ShareModes(hf);
    Row(ModeState(orig),
        if !orig.unowned then NoAccess else if orig.shared then OwnerShared else OwnerLent,
        ModeState(f), ModeState(t))
  }

  /** The call has checked both tables, and is going to make transfer `row`. */
  ghost predicate Checked(from: seq<Entry>, to: seq<Entry>, level: nat, c: Call, row: Row)
    requires Tables(from, level) && Tables(to, level)
  {
    match c
    case Message(_, _, lo, hi, share, access, plan) =>
      && Lawful(share, access, from, level, to, level, lo * PAGE_SIZE, hi * PAGE_SIZE, plan)
      && ModeOf(to, level, lo * PAGE_SIZE, hi * PAGE_SIZE).Some?
      && row == Row(ModeState(plan.orig), ModeState(ModeOf(to, level, lo * PAGE_SIZE, hi * PAGE_SIZE).value),
                    ModeState(plan.from), ModeState(plan.to))
    case OldShare(_, _, lo, hi, hf) =>
      && Shareable(hf, from, to, level, lo * PAGE_SIZE, hi * PAGE_SIZE)
      && row == ShareRow(hf, ModeOf(from, level, lo * PAGE_SIZE, hi * PAGE_SIZE).value)
  }

  lemma ModeView(tops: seq<Entry>, level: nat, lo: nat, hi: nat)
    requires Tables(tops, level) && ModeOf(tops, level, lo * PAGE_SIZE, hi * PAGE_SIZE).Some?
    ensures hi * PAGE_SIZE <= SpaceEnd(|tops|, level)
    ensures forall p | lo <= p < hi ::
              PageView(tops, level, p) == ModeState(ModeOf(tops, level, lo * PAGE_SIZE, hi * PAGE_SIZE).value)
  {
    hide PageView, ModeState, FromRaw, UniformRaw;
    var raw :| UniformRaw(tops, level, lo * PAGE_SIZE, hi * PAGE_SIZE, raw);
    ModeIs(tops, level, lo * PAGE_SIZE, hi * PAGE_SIZE, raw);
    RangeOf(tops, level, lo * PAGE_SIZE, hi * PAGE_SIZE, raw);
    forall p | lo <= p < hi ensures PageView(tops, level, p) == ModeState(FromRaw(raw)) {
      UniformView(tops, level, lo, hi, raw, p);
    }
  }

  lemma ShareRowGuard(hf: HfShare, orig: Mode, to: Option<Mode>, toState: PageState)
    requires ShareAllowed(hf, orig, to) && (to.Some? ==> toState == ModeState(to.value))
    ensures Guard(ShareRow(hf, orig), ModeState(orig), toState)
  {
  }

  /** A lawful message has a plan for the modes that both tables have. */
  lemma LawfulModes(share: MemoryShare, access: Access, from: seq<Entry>, to: seq<Entry>, level: nat, begin: nat,
                    end: nat, plan: Plan)
    requires Tables(from, level) && Tables(to, level) && Lawful(share, access, from, level, to, level, begin, end, plan)
    ensures ModeOf(from, level, begin, end) == Some(plan.orig) && ModeOf(to, level, begin, end).Some?
    ensures NextState(share, access, plan.orig, ModeOf(to, level, begin, end).value) == Some((plan.from, plan.to))
  {
    hide NextState, FromRaw, UniformRaw, ModeOf;
    var f, t :|
      && UniformRaw(from, level, begin, end, f) && UniformRaw(to, level, begin, end, t)
      && plan.orig == FromRaw(f) && NextState(share, access, FromRaw(f), FromRaw(t)) == Some((plan.from, plan.to));
    ModeIs(from, level, begin, end, f);
    ModeIs(to, level, begin, end, t);
  }

  /** What the checks of a call mean for each page. */
  lemma CheckedGuards(from: seq<Entry>, to: seq<Entry>, level: nat, c: Call, row: Row)
    requires Tables(from, level) && Tables(to, level) && Checked(from, to, level, c, row)
    ensures c.hi * PAGE_SIZE <= SpaceEnd(|from|, level)
    ensures forall p: nat | c.lo <= p < c.hi ::
              PageView(from, level, p) == row.from && Guard(row, PageView(from, level, p), PageView(to, level, p))
  {
    hide PageView, ModeState, NextState, ShareModes, ShareAllowed, Guard, ModeOf, Lawful, Tables;
    var begin, end := c.lo * PAGE_SIZE, c.hi * PAGE_SIZE;
    if c.Message? {
      LawfulModes(c.share, c.access, from, to, level, begin, end, c.plan);
      ModeView(from, level, c.lo, c.hi);
      ModeView(to, level, c.lo, c.hi);
      MessageGuard(c.share, c.access, c.plan, ModeOf(to, level, begin, end).value, row);
    } else {
      var orig, other := ModeOf(from, level, begin, end).value, ModeOf(to, level, begin, end);
      ModeView(from, level, c.lo, c.hi);
      if other.Some? { ModeView(to, level, c.lo, c.hi); }
      forall p: nat | c.lo <= p < c.hi ensures Guard(row, PageView(from, level, p), PageView(to, level, p)) {
        ShareRowGuard(c.hf, orig, other, PageView(to, level, p));
      }
    }
  }

  lemma MessageGuard(share: MemoryShare, access: Access, plan: Plan, to: Mode, row: Row)
    requires NextState(share, access, plan.orig, to) == Some((plan.from, plan.to))
    requires row == Row(ModeState(plan.orig), ModeState(to), ModeState(plan.from), ModeState(plan.to))
    ensures Guard(row, row.from, row.to)
  {
    hide ModeState, NextState, LegalRow;
    TablesMatchPurpose(share, access, plan.orig, to);
  }

  ghost predicate OwnedPage(tops: seq<Entry>, level: nat, page: nat)
    requires Tables(tops, level)
  {
    var m := ModeOf(tops, level, page * PAGE_SIZE, page * PAGE_SIZE + PAGE_SIZE);
    m.Some? && ValidOwnedExclusive(m.value)
  }

  lemma OwnedPageView(tops: seq<Entry>, level: nat, page: nat)
    requires Tables(tops, level) && OwnedPage(tops, level, page)
    ensures PageView(tops, level, page).OwnerExclusive? && (page + 1) * PAGE_SIZE <= SpaceEnd(|tops|, level)
  {
    hide ModeOf, PageView;
    assert page * PAGE_SIZE + PAGE_SIZE == (page + 1) * PAGE_SIZE;
    ModeView(tops, level, page, page + 1);
  }

  // ---- Stages of calls -----------------------------------------------------------------------

  /** One update of one table by one call. */
  datatype Stage =
    | Begin(c: Call, row: Row)                  // the sender's table, after the checks
    | Complete(f: Flight)                       // the recipient's table
    | Revert(f: Flight)                         // the sender's table, taken back
    | TakeSend(vm: nat, send: nat, recv: nat)   // the send page of a mailbox, after the checks
    | TurnRecv(f: Flight)                       // the receive page, taken or given back
    | SetUp(f: Flight)                          // the hypervisor has mapped both
    | BackSend(f: Flight)                       // the send page, given back
    | Reshape(vm: nat)                          // splitting and merging that means nothing

  function FlightOf(c: Call, row: Row): Flight {
    Move(c.from, c.to, c.lo, c.hi, row)
  }

  /** The VM whose table the stage updates. */
  function Target(st: Stage): nat {
    match st
    case Begin(c, _) => c.from
    case Complete(f) => if f.Move? then f.to else f.vm
    case Revert(f) => if f.Move? then f.from else f.vm
    case TakeSend(vm, _, _) => vm
    case TurnRecv(f) => if f.Move? then f.from else f.vm
    case SetUp(f) => if f.Move? then f.from else f.vm
    case BackSend(f) => if f.Move? then f.from else f.vm
    case Reshape(vm) => vm
  }

  ghost predicate Unlocked(flights: set<Flight>, v: nat) {
    forall f | f in flights :: !Locks(f, v)
  }

  ghost predicate StageOk(m: Machine, m': Machine, level: nat, st: Stage)
    requires World(m.all, level) && World(m'.all, level)
  {
    var v := Target(st);
    && |m'.all| == |m.all| && v < |m.all| && (forall w | 0 <= w < |m.all| && w != v :: m'.all[w] == m.all[w])
    && Updates(m, m'.all[v], m'.flights, level, st)
  }

  /** What the stage does to its table and to the calls in flight. */
  ghost predicate Updates(m: Machine, tops: seq<Entry>, flights: set<Flight>, level: nat, st: Stage)
    requires World(m.all, level) && Target(st) < |m.all|
  {
    var was := m.all[Target(st)];
    match st
    case Begin(c, row) =>
      && c.from != c.to && c.to < |m.all| && Unlocked(m.flights, c.from) && Unlocked(m.flights, c.to)
      && Checked(was, m.all[c.to], level, c, row)
      && Repaged(was, tops, level, c.lo, c.hi, row.from') && flights == m.flights + {FlightOf(c, row)}
    case Complete(f) =>
      f in m.flights && f.Move? && Repaged(was, tops, level, f.lo, f.hi, f.row.to') && flights == m.flights - {f}
    case Revert(f) =>
      f in m.flights && f.Move? && Repaged(was, tops, level, f.lo, f.hi, f.row.from) && flights == m.flights - {f}
    case TakeSend(vm, send, recv) =>
      && send != recv && Unlocked(m.flights, vm) && OwnedPage(was, level, send) && OwnedPage(was, level, recv)
      && Repaged(was, tops, level, send, send + 1, BorrowerShared)
      && flights == m.flights + {Setup(vm, send, recv, false)}
    case TurnRecv(f) =>
      && f in m.flights && f.Setup?
      && Repaged(was, tops, level, f.recv, f.recv + 1, if f.both then OwnerExclusive else BorrowerShared)
      && flights == m.flights - {f} + {f.(both := !f.both)}
    case SetUp(f) =>
      f in m.flights && f.Setup? && f.both && tops == was && flights == m.flights - {f}
    case BackSend(f) =>
      && f in m.flights && f.Setup? && !f.both
      && Repaged(was, tops, level, f.send, f.send + 1, OwnerExclusive) && flights == m.flights - {f}
    case Reshape(_) => SameMeaning(was, tops, level) && flights == m.flights
  }

  // ---- Every stage is a protocol step --------------------------------------------------------

  lemma RepagedSets(m: Machine, m': Machine, level: nat, v: nat, lo: nat, hi: nat, st: PageState)
    requires World(m.all, level) && World(m'.all, level) && |m'.all| == |m.all| && v < |m.all|
    requires forall w | 0 <= w < |m.all| && w != v :: m'.all[w] == m.all[w]
    requires Repaged(m.all[v], m'.all[v], level, lo, hi, st)
    ensures Sets(AbsIn(m, level), AbsIn(m', level), v, In(lo, hi), st)
    ensures hi == lo + 1 ==> Sets(AbsIn(m, level), AbsIn(m', level), v, Only(lo), st)
  {
    hide PageView, Tables;
    var s, s' := AbsIn(m, level), AbsIn(m', level);
    forall w, p: nat | 0 <= w < |m.all| ensures s'.views[w](p) == if w == v && lo <= p < hi then st else s.views[w](p) {
      assert s.views[w](p) == PageView(m.all[w], level, p) && s'.views[w](p) == PageView(m'.all[w], level, p);
    }
  }

  lemma MoveStage(m: Machine, m': Machine, level: nat, st: Stage)
    requires World(m.all, level) && World(m'.all, level) && StageOk(m, m', level, st) &&
             (st.Begin? || st.Complete? || st.Revert?)
    ensures Step(AbsIn(m, level), AbsIn(m', level), if st.Begin? then FlightOf(st.c, st.row) else st.f)
  {
    hide PageView, Guard, Repaged, Checked, Tables, Sets, LegalRow;
    var s, s' := AbsIn(m, level), AbsIn(m', level);
    match st
    case Begin(c, row) =>
      CheckedGuards(m.all[c.from], m.all[c.to], level, c, row);
      RepagedSets(m, m', level, c.from, c.lo, c.hi, row.from');
      assert forall p | c.lo <= p < c.hi :: s.views[c.from](p) == PageView(m.all[c.from], level, p);
      assert Start(s, s', FlightOf(c, row));
    case Complete(f) =>
      RepagedSets(m, m', level, f.to, f.lo, f.hi, f.row.to');
      assert Finish(s, s', f);
    case Revert(f) =>
      RepagedSets(m, m', level, f.from, f.lo, f.hi, f.row.from);
      assert Ownership.Undo(s, s', f);
  }

  lemma SetupStage(m: Machine, m': Machine, level: nat, st: Stage)
    requires World(m.all, level) && World(m'.all, level) && StageOk(m, m', level, st)
    requires st.TakeSend? || st.TurnRecv? || st.SetUp? || st.BackSend?
    ensures Step(AbsIn(m, level), AbsIn(m', level),
                 if st.TakeSend? then Setup(st.vm, st.send, st.recv, false) else st.f)
  {
    hide PageView, Repaged, OwnedPage, Tables, Sets;
    var s, s' := AbsIn(m, level), AbsIn(m', level);
    match st
    case TakeSend(vm, send, recv) =>
      OwnedPageView(m.all[vm], level, send);
      OwnedPageView(m.all[vm], level, recv);
      RepagedSets(m, m', level, vm, send, send + 1, BorrowerShared);
      assert SetupStart(s, s', Setup(vm, send, recv, false));
    case TurnRecv(f) =>
      RepagedSets(m, m', level, f.vm, f.recv, f.recv + 1, if f.both then OwnerExclusive else BorrowerShared);
      assert SetupTurn(s, s', f);
    case SetUp(f) =>
      assert SameViews(s, s');
      assert SetupFinish(s, s', f);
    case BackSend(f) =>
      RepagedSets(m, m', level, f.vm, f.send, f.send + 1, OwnerExclusive);
      assert SetupUndo(s, s', f);
  }

  lemma SameViewsKeepInv(s: System, s': System)
    requires Inv(s) && s'.flights == s.flights && SameViews(s, s')
    ensures Inv(s')
  {
    forall p: nat ensures HasUse(s', p) {
      assert HasUse(s, p);
      var u :| Used(s, p, u);
      forall v | 0 <= v < |s'.views| ensures UsedBy(s', p, u, v) {
        assert UsedBy(s, p, u, v);
      }
      assert Used(s', p, u);
    }
  }

  lemma ReshapeKeepsInv(m: Machine, m': Machine, level: nat, st: Stage)
    requires World(m.all, level) && World(m'.all, level) && StageOk(m, m', level, st) && st.Reshape? &&
             Inv(AbsIn(m, level))
    ensures Inv(AbsIn(m', level))
  {
    hide Inv, PageView, SameMeaning, Tables;
    var s, s' := AbsIn(m, level), AbsIn(m', level);
    forall w, p: nat | 0 <= w < |m.all| ensures s'.views[w](p) == s.views[w](p) {
      if w == st.vm { SameView(m.all[w], m'.all[w], level, p); }
      assert s.views[w](p) == PageView(m.all[w], level, p) && s'.views[w](p) == PageView(m'.all[w], level, p);
    }
    SameViewsKeepInv(s, s');
  }

  /** Every stage of every call keeps every page in a proper use, whatever other calls are in flight. */
  lemma StageKeepsInv(m: Machine, m': Machine, level: nat, st: Stage)
    requires World(m.all, level) && World(m'.all, level) && StageOk(m, m', level, st) && Inv(AbsIn(m, level))
    ensures Inv(AbsIn(m', level))
  {
    hide Inv, AbsIn, World, StageOk, Step;
    if st.Reshape? {
      ReshapeKeepsInv(m, m', level, st);
    } else if st.Begin? || st.Complete? || st.Revert? {
      MoveStage(m, m', level, st);
      StepKeepsInv(AbsIn(m, level), AbsIn(m', level), if st.Begin? then FlightOf(st.c, st.row) else st.f);
    } else {
      SetupStage(m, m', level, st);
      StepKeepsInv(AbsIn(m, level), AbsIn(m', level),
                   if st.TakeSend? then Setup(st.vm, st.send, st.recv, false) else st.f);
    }
  }

  /** The calls that a stage needs to be in flight. */
  function Needs(st: Stage): set<Flight> {
    if st.Begin? || st.TakeSend? || st.Reshape? then {} else {st.f}
  }

  /** The VMs whose tables a stage looks at. */
  function Looks(st: Stage): set<nat> {
    if st.Begin? then {st.c.from, st.c.to} else {Target(st)}
  }

  /** The same stage among other tables and other calls in flight. */
  ghost function Elsewhere(n: Machine, m: Machine, m': Machine, st: Stage): Machine
    requires Target(st) < |n.all| && Target(st) < |m'.all|
  {
    Machine(n.all[Target(st) := m'.all[Target(st)]], n.flights - (m.flights - m'.flights) + (m'.flights - m.flights))
  }

  /** A stage depends only on the tables it looks at and on its own call, so it can be taken in the middle of
      any other calls. */
  lemma StageAnywhere(m: Machine, m': Machine, n: Machine, level: nat, st: Stage)
    requires World(m.all, level) && World(m'.all, level) && World(n.all, level) && StageOk(m, m', level, st)
    requires |n.all| == |m.all| && |n.all[0]| == |m.all[0]|
    requires forall v | v in Looks(st) :: v < |n.all| && n.all[v] == m.all[v]
    requires Needs(st) <= n.flights &&
             ((st.Begin? || st.TakeSend?) ==> forall v | v in Looks(st) :: Unlocked(n.flights, v))
    requires st.TurnRecv? ==> st.f.(both := !st.f.both) !in m.flights + n.flights
    ensures World(Elsewhere(n, m, m', st).all, level) && StageOk(n, Elsewhere(n, m, m', st), level, st)
  {
    hide Repaged, Checked, OwnedPage, SameMeaning, Tables;
    var n' := Elsewhere(n, m, m', st);
    var v := Target(st);
    assert v in Looks(st);
    assert n'.all[v] == m'.all[v] && forall w | 0 <= w < |n.all| && w != v :: n'.all[w] == n.all[w];
    SameShape(m, m', level, st);
    assert |n'.all[v]| == |n.all[v]| == |n.all[0]|;
    FlightsElsewhere(m, m', n, level, st);
  }

  lemma SameShape(m: Machine, m': Machine, level: nat, st: Stage)
    requires World(m.all, level) && World(m'.all, level) && StageOk(m, m', level, st)
    ensures |m'.all[Target(st)]| == |m.all[Target(st)]| && Tables(m'.all[Target(st)], level)
  {
    hide PageView, Checked, OwnedPage, RawAt, Tables;
  }

  lemma FlightsElsewhere(m: Machine, m': Machine, n: Machine, level: nat, st: Stage)
    requires World(m.all, level) && World(m'.all, level) && StageOk(m, m', level, st)
    requires Needs(st) <= n.flights && (st.Begin? ==> Unlocked(n.flights, st.c.from)) &&
             (st.TakeSend? ==> Unlocked(n.flights, st.vm))
    requires st.TurnRecv? ==> st.f.(both := !st.f.both) !in m.flights + n.flights
    ensures n.flights - (m.flights - m'.flights) + (m'.flights - m.flights) ==
            match st
            case Begin(c, row) => n.flights + {FlightOf(c, row)}
            case TakeSend(vm, send, recv) => n.flights + {Setup(vm, send, recv, false)}
            case TurnRecv(f) => n.flights - {f} + {f.(both := !f.both)}
            case Reshape(_) => n.flights
            case Complete(f) => n.flights - {f}
            case Revert(f) => n.flights - {f}
            case SetUp(f) => n.flights - {f}
            case BackSend(f) => n.flights - {f}
  {
    hide Repaged, Checked, OwnedPage, SameMeaning, Tables;
    if st.Begin? { assert Locks(FlightOf(st.c, st.row), st.c.from); }
    if st.TakeSend? { assert Locks(Setup(st.vm, st.send, st.recv, false), st.vm); }
  }

  // ---- Runs ----------------------------------------------------------------------------------

  /** Stages of any number of calls, in any order that the VM locks allow. */
  ghost predicate TableRun(run: seq<Machine>, level: nat) {
    && |run| > 0 && (forall i | 0 <= i < |run| :: World(run[i].all, level))
    && forall i | 0 <= i < |run| - 1 :: StepAt(run, level, i)
  }

  ghost predicate StepAt(run: seq<Machine>, level: nat, i: nat)
    requires i + 1 < |run| && World(run[i].all, level) && World(run[i + 1].all, level)
  {
    Next(run[i], run[i + 1], level)
  }

  ghost predicate Next(m: Machine, m': Machine, level: nat)
    requires World(m.all, level) && World(m'.all, level)
  {
    exists st :: StageOk(m, m', level, st)
  }

  lemma {:induction false} TableRunKeepsInv(run: seq<Machine>, level: nat, i: nat)
    requires TableRun(run, level) && Inv(AbsIn(run[0], level)) && i < |run|
    ensures Inv(AbsIn(run[i], level))
    decreases i
  {
    hide Inv, AbsIn, World, StageOk;
    if i > 0 {
      var j := i - 1;
      TableRunKeepsInv(run, level, j);
      assert StepAt(run, level, j);
      var st :| StageOk(run[j], run[j + 1], level, st);
      StageKeepsInv(run[j], run[i], level, st);
    }
  }

  ghost predicate FromInitial(run: seq<Machine>, level: nat) {
    TableRun(run, level) && run[0].flights == {} && Initial(Abs(run[0].all, level))
  }

  lemma FromInitialInv(run: seq<Machine>, level: nat, i: nat)
    requires FromInitial(run, level) && i < |run|
    ensures Inv(AbsIn(run[i], level))
  {
    hide Inv, Initial, World, StepAt;
    assert run[0] == Machine(run[0].all, {});
    InitialInv(Abs(run[0].all, level));
    TableRunKeepsInv(run, level, i);
  }

  /** In every interleaving of sharing calls and mailbox setups over real page tables, from exclusive
      ownership on, a page that no call is working on is unrelated to all VMs, exclusively owned by one,
      shared by its owner with one borrower, lent to one exclusive borrower, or a mailbox page of one VM. */
  lemma TablesAgreeOnOwnership(run: seq<Machine>, level: nat, i: nat, p: nat)
    requires FromInitial(run, level) && i < |run| && forall f | f in run[i].flights :: !Covers(f, p)
    ensures exists u :: WFUse(u) && forall v | 0 <= v < |run[i].all| ::
              PageView(run[i].all[v], level, p) == StateIn(u, v)
  {
    hide PageView, Initial, FromInitial;
    RunWorld(run, level, i);
    FromInitialInv(run, level, i);
    var s := AbsIn(run[i], level);
    assert HasUse(s, p);
    var u :| Used(s, p, u);
    forall v | 0 <= v < |run[i].all| ensures PageView(run[i].all[v], level, p) == StateIn(u, v) {
      AtRest(s, p, u, v);
      assert s.views[v](p) == PageView(run[i].all[v], level, p);
    }
  }

  lemma RunWorld(run: seq<Machine>, level: nat, i: nat)
    requires FromInitial(run, level) && i < |run|
    ensures World(run[i].all, level)
  {
  }

  /** Even in the middle of transfers, a page has at most one owner, and whoever has exclusive access is
      alone. */
  lemma TablesNeverOwnTwice(run: seq<Machine>, level: nat, i: nat, p: nat, v: nat, w: nat)
    requires FromInitial(run, level) && i < |run| && World(run[i].all, level) && v < |run[i].all| &&
             w < |run[i].all| && v != w
    ensures !(Owns(PageView(run[i].all[v], level, p)) && Owns(PageView(run[i].all[w], level, p)))
    ensures Exclusive(PageView(run[i].all[v], level, p)) ==> !CanAccess(PageView(run[i].all[w], level, p))
  {
    hide PageView, Initial, FromInitial;
    FromInitialInv(run, level, i);
    var s := AbsIn(run[i], level);
    assert HasUse(s, p);
    var u :| Used(s, p, u);
    TwoStates(s, p, u, v, w);
    assert s.views[v](p) == PageView(run[i].all[v], level, p) && s.views[w](p) == PageView(run[i].all[w], level, p);
  }

  // ---- Building runs -------------------------------------------------------------------------

  lemma RunStart(m: Machine, level: nat)
    requires World(m.all, level)
    ensures TableRun([m], level)
  {
  }

  lemma RunMore(run: seq<Machine>, m: Machine, level: nat, st: Stage)
    requires TableRun(run, level) && World(m.all, level) && StageOk(run[|run| - 1], m, level, st)
    ensures TableRun(run + [m], level)
  {
    hide World, StageOk;
    var more := run + [m];
    forall i | 0 <= i < |more| - 1 ensures StepAt(more, level, i) {
      if i < |run| - 1 { assert StepAt(run, level, i); }
    }
  }

  lemma RunJoin(run: seq<Machine>, next: seq<Machine>, level: nat)
    requires TableRun(run, level) && TableRun(next, level) && run[|run| - 1] == next[0]
    ensures TableRun(run + next[1..], level)
    ensures var all := run + next[1..]; all[0] == run[0] && all[|all| - 1] == next[|next| - 1]
  {
    hide World, Next;
    var all, n := run + next[1..], |run|;
    forall i | 0 <= i < |all| - 1 ensures StepAt(all, level, i) {
      if i < n - 1 {
        assert StepAt(run, level, i);
      } else {
        assert StepAt(next, level, i - n + 1);
        assert all[i] == next[i - n + 1] && all[i + 1] == next[i - n + 2];
      }
    }
  }
}
