/** The sharing calls and the mailbox setup, made on the page tables of all VMs: every call leaves all tables
    and the pool apart, ready for the next call, and its updates are stages of the runs that `Refinement` is
    about. */
module Calls {
  import opened Common
  import opened Geometry
  import opened Entries
  import opened Roots
  import opened Encoding
  import opened Ownership
  import opened Transitions
  import opened Transfer
  import opened Sharing
  import opened MailboxSetup
  import opened Refinement
  import PT = PageTable
  import P = MPool

  // ---- All tables and the pool ---------------------------------------------------------------

  /** Page tables of one shape. No page belongs to two of them, or to one of them and the pool. */
  ghost predicate Team(vms: seq<PT.PageTable>, level: nat, pool: P.MPool)
    reads vms, pool, pool.Repr
  {
    && pool.Valid() && (forall v | 0 <= v < |vms| :: Fits(vms[v], level, vms[0].count, pool))
    && (forall v, w | 0 <= v < w < |vms| :: vms[v] != vms[w] && vms[v].store.Keys !! vms[w].store.Keys)
  }

  ghost predicate Fits(t: PT.PageTable, level: nat, count: nat, pool: P.MPool)
    reads t, pool
  {
    t.Valid() && t !in pool.Repr && t.store.Keys !! pool.avail && t.maxLevel == level && t.count == count
  }

  ghost function AllTops(vms: seq<PT.PageTable>): (all: seq<seq<Entries.Entry>>)
    reads vms
    ensures |all| == |vms| && forall v | 0 <= v < |vms| :: all[v] == vms[v].tops
  {
    seq(|vms|, v requires 0 <= v < |vms| reads vms => vms[v].tops)
  }

  lemma TeamWorld(vms: seq<PT.PageTable>, level: nat, pool: P.MPool)
    requires Team(vms, level, pool)
    ensures World(AllTops(vms), level)
  {
    hide RootOk, Tables, P.MPool.Valid;
    forall v | 0 <= v < |vms| ensures Tables(vms[v].tops, level) && |vms[v].tops| == |vms[0].tops| {
      assert Fits(vms[v], level, vms[0].count, pool) && Fits(vms[0], level, vms[0].count, pool);
      TablesOf(vms[v]);
    }
  }

  lemma TeamPair(vms: seq<PT.PageTable>, level: nat, pool: P.MPool, v: nat, w: nat)
    requires Team(vms, level, pool) && v < |vms| && w < |vms| && v != w
    ensures Pair(vms[v], vms[w], pool) && vms[v].count == vms[w].count && vms[v].maxLevel == vms[w].maxLevel == level
  {
    hide RootOk, P.MPool.Valid;
    assert Fits(vms[v], level, vms[0].count, pool) && Fits(vms[w], level, vms[0].count, pool);
  }

  /** A page that none of three owners had before none of them has now, if they got no new pages. */
  lemma StayApart(x: set<nat>, held: set<nat>, a: set<nat>, b: set<nat>, free: set<nat>)
    requires x !! held && a + b + free <= held
    ensures x !! a && x !! b && x !! free
  {
    assert forall q | q in x :: q !in a + b + free;
  }

  // ---- Runs of one call ----------------------------------------------------------------------

  ghost predicate Leads(run: seq<Machine>, level: nat, all: seq<seq<Entries.Entry>>, all': seq<seq<Entries.Entry>>,
                        fs: set<Flight>) {
    TableRun(run, level) && run[0] == Machine(all, fs) && run[|run| - 1] == Machine(all', fs)
  }

  /** Only the tables of VMs `v` and `w` differ. */
  ghost predicate Within(all: seq<seq<Entries.Entry>>, all': seq<seq<Entries.Entry>>, level: nat, v: nat, w: nat) {
    && World(all, level) && World(all', level) && |all'| == |all| && v < |all| && w < |all|
    && forall u | 0 <= u < |all| && u != v && u != w :: all'[u] == all[u]
  }

  lemma WorldWith(all: seq<seq<Entries.Entry>>, level: nat, v: nat, tops: seq<Entries.Entry>)
    requires World(all, level) && v < |all| && Tables(tops, level) && |tops| == |all[v]|
    ensures World(all[v := tops], level)
  {
    hide Tables;
  }

  /** A call that only reshaped its two tables. */
  /** Two tables change, over one range, to the given modes, and no other table does. */
  ghost predicate Handed(all: seq<seq<Entries.Entry>>, all': seq<seq<Entries.Entry>>, level: nat, from: nat, to: nat,
                         begin: nat, end: nat, f: Mode, t: Mode) {
    && |all'| == |all| && from < |all| && to < |all| && from != to
    && Rewritten(all[from], all'[from], level, begin, end, ToAttrs(f))
    && Rewritten(all[to], all'[to], level, begin, end, ToAttrs(t))
    && forall v | 0 <= v < |all| && v != from && v != to :: all'[v] == all[v]
  }

  ghost predicate AllSame(all: seq<seq<Entries.Entry>>, all': seq<seq<Entries.Entry>>, level: nat) {
    |all'| == |all| && forall v | 0 <= v < |all| :: SameMeaning(all[v], all'[v], level)
  }

  lemma OthersSame(all: seq<seq<Entries.Entry>>, all': seq<seq<Entries.Entry>>, level: nat, v: nat, w: nat)
    requires Within(all, all', level, v, w)
    requires SameMeaning(all[v], all'[v], level) && SameMeaning(all[w], all'[w], level)
    ensures AllSame(all, all', level)
  {
    hide SameMeaning, Tables;
    forall u | 0 <= u < |all| ensures SameMeaning(all[u], all'[u], level) {
      if u != v && u != w { SameAsItself(all[u], level); }
    }
  }

  lemma NothingMoved(all: seq<seq<Entries.Entry>>, all': seq<seq<Entries.Entry>>, level: nat, v: nat, w: nat,
                     fs: set<Flight>)
    returns (run: seq<Machine>)
    requires Within(all, all', level, v, w)
    requires SameMeaning(all[v], all'[v], level) && SameMeaning(all[w], all'[w], level)
    ensures Leads(run, level, all, all', fs)
  {
    hide SameMeaning, Tables, TableRun;
    var m0, m1, m2 := Machine(all, fs), Machine(all[v := all'[v]], fs), Machine(all', fs);
    SameSize(all[v], all'[v], level);
    WorldWith(all, level, v, all'[v]);
    SameAsItself(all'[w], level);
    RunStart(m0, level);
    RunMore([m0], m1, level, Reshape(v));
    assert [m0] + [m1] == [m0, m1];
    RunMore([m0, m1], m2, level, Reshape(w));
    run := [m0, m1] + [m2];
  }

  lemma SameSize(tops: seq<Entries.Entry>, tops': seq<Entries.Entry>, level: nat)
    requires SameMeaning(tops, tops', level)
    ensures |tops'| == |tops| && Tables(tops', level)
  {
  }

  lemma RepagedSize(tops: seq<Entries.Entry>, tops': seq<Entries.Entry>, level: nat, lo: nat, hi: nat, st: PageState)
    requires Repaged(tops, tops', level, lo, hi, st)
    ensures |tops'| == |tops| && Tables(tops', level)
  {
  }

  /** The sender's update of a call that has made its checks. */
  lemma Begun(all: seq<seq<Entries.Entry>>, level: nat, c: Call, row: Row, sent: seq<Entries.Entry>, fs: set<Flight>)
    returns (m: Machine)
    requires World(all, level) && c.from < |all| && c.to < |all| && c.from != c.to && Unlocked(fs, c.from) &&
             Unlocked(fs, c.to)
    requires Checked(all[c.from], all[c.to], level, c, row) && Repaged(all[c.from], sent, level, c.lo, c.hi, row.from')
    ensures m == Machine(all[c.from := sent], fs + {FlightOf(c, row)}) && World(m.all, level)
    ensures FlightOf(c, row) !in fs && TableRun([Machine(all, fs), m], level)
  {
    hide Checked, Repaged, Tables;
    RepagedSize(all[c.from], sent, level, c.lo, c.hi, row.from');
    WorldWith(all, level, c.from, sent);
    m := Machine(all[c.from := sent], fs + {FlightOf(c, row)});
    assert Locks(FlightOf(c, row), c.from);
    RunStart(Machine(all, fs), level);
    RunMore([Machine(all, fs)], m, level, Begin(c, row));
    assert [Machine(all, fs)] + [m] == [Machine(all, fs), m];
  }

  /** A call that moved pages: the sender's update, then the recipient's. */
  lemma Moved(all: seq<seq<Entries.Entry>>, all': seq<seq<Entries.Entry>>, level: nat, c: Call, row: Row,
              fs: set<Flight>) returns (run: seq<Machine>)
    requires Within(all, all', level, c.from, c.to) && c.from != c.to && Unlocked(fs, c.from) && Unlocked(fs, c.to)
    requires Checked(all[c.from], all[c.to], level, c, row)
    requires Repaged(all[c.from], all'[c.from], level, c.lo, c.hi, row.from') &&
             Repaged(all[c.to], all'[c.to], level, c.lo, c.hi, row.to')
    ensures Leads(run, level, all, all', fs)
  {
    hide Checked, Repaged, Tables, TableRun;
    var f := FlightOf(c, row);
    var m := Begun(all, level, c, row, all'[c.from], fs);
    var m' := Machine(all', fs);
    assert m.flights - {f} == fs;
    RunMore([Machine(all, fs), m], m', level, Complete(f));
    run := [Machine(all, fs), m] + [m'];
  }

  /** A call whose recipient could not be updated: the sender gets its pages back. */
  lemma TakenBack(all: seq<seq<Entries.Entry>>, all': seq<seq<Entries.Entry>>, level: nat, c: Call, row: Row,
                  sent: seq<Entries.Entry>, fs: set<Flight>)
    returns (run: seq<Machine>)
    requires Within(all, all', level, c.from, c.to) && c.from != c.to && Unlocked(fs, c.from) && Unlocked(fs, c.to)
    requires Checked(all[c.from], all[c.to], level, c, row) && Repaged(all[c.from], sent, level, c.lo, c.hi, row.from')
    requires SameMeaning(all[c.from], all'[c.from], level) && SameMeaning(all[c.to], all'[c.to], level)
    ensures Leads(run, level, all, all', fs)
  {
    hide Checked, Repaged, Tables, TableRun, SameMeaning;
    var f := FlightOf(c, row);
    var m0 := Machine(all, fs);
    var m1 := Begun(all, level, c, row, sent, fs);
    var m2 := Machine(m1.all[c.to := all'[c.to]], m1.flights);
    SameSize(all[c.to], all'[c.to], level);
    WorldWith(m1.all, level, c.to, all'[c.to]);
    RunMore([m0, m1], m2, level, Reshape(c.to));
    assert [m0, m1] + [m2] == [m0, m1, m2];
    CheckedGuards(all[c.from], all[c.to], level, c, row);
    BackRepages(all[c.from], sent, all'[c.from], level, c.lo, c.hi, row.from', row.from);
    assert m2.flights - {f} == fs;
    RunMore([m0, m1, m2], Machine(all', fs), level, Revert(f));
    run := [m0, m1, m2] + [Machine(all', fs)];
  }

  // ---- Memory-sharing messages ---------------------------------------------------------------

  lemma PagesOfCall(address: nat, count: nat)
    requires address % PAGE_SIZE == 0
    ensures address == address / PAGE_SIZE * PAGE_SIZE
    ensures address + count * PAGE_SIZE == (address / PAGE_SIZE + count) * PAGE_SIZE
  {
  }

  /** The stages of a message call, from what the call promises. */
  lemma MessageRun(all: seq<seq<Entries.Entry>>, all': seq<seq<Entries.Entry>>, level: nat, c: Call, ok: bool,
                   sent: seq<Entries.Entry>, fs: set<Flight>)
    returns (run: seq<Machine>)
    requires Within(all, all', level, c.from, c.to) && c.from != c.to && Unlocked(fs, c.from) && Unlocked(fs, c.to) &&
             c.Message?
    requires Lawful(c.share, c.access, all[c.from], level, all[c.to], level, c.lo * PAGE_SIZE, c.hi * PAGE_SIZE, c.plan)
    requires Rewritten(all[c.from], sent, level, c.lo * PAGE_SIZE, c.hi * PAGE_SIZE, ToAttrs(c.plan.from))
    requires ok ==>
               sent == all'[c.from] &&
               Rewritten(all[c.to], all'[c.to], level, c.lo * PAGE_SIZE, c.hi * PAGE_SIZE, ToAttrs(c.plan.to))
    requires !ok ==> SameMeaning(all[c.from], all'[c.from], level) && SameMeaning(all[c.to], all'[c.to], level)
    ensures Leads(run, level, all, all', fs)
  {
    hide Rewritten, Tables, Lawful, ModeState, ModeOf, SameMeaning, Leads, Repaged, NextState;
    var begin, end := c.lo * PAGE_SIZE, c.hi * PAGE_SIZE;
    LawfulModes(c.share, c.access, all[c.from], all[c.to], level, begin, end, c.plan);
    var row := Row(ModeState(c.plan.orig), ModeState(ModeOf(all[c.to], level, begin, end).value),
                   ModeState(c.plan.from), ModeState(c.plan.to));
    assert Checked(all[c.from], all[c.to], level, c, row);
    CheckedGuards(all[c.from], all[c.to], level, c, row);
    RewrittenRepages(all[c.from], sent, level, c.lo, c.hi, c.plan.from);
    if ok {
      RewrittenRepages(all[c.to], all'[c.to], level, c.lo, c.hi, c.plan.to);
      run := Moved(all, all', level, c, row, fs);
    } else {
      run := TakenBack(all, all', level, c, row, sent, fs);
    }
  }

  /** `spci_share_memory` between VMs `from` and `to`, while the calls in `fs` are in flight elsewhere. */
  method ShareMessage(vms: seq<PT.PageTable>, from: nat, to: nat, address: nat, count: nat, access: Access,
                      share: MemoryShare, level: nat, pool: P.MPool, drain: (nat, nat, nat), ghost fs: set<Flight>)
    returns (r: SpciReturn, ghost plan: Plan, ghost run: seq<Machine>)
    requires Team(vms, level, pool) && from < |vms| && to < |vms| && Unlocked(fs, from) && Unlocked(fs, to)
    modifies vms[from], vms[to], pool.Repr
    ensures Team(vms, level, pool) && Leads(run, level, old(AllTops(vms)), AllTops(vms), fs)
    ensures World(old(AllTops(vms)), level) && (r.Success? || r.NoMemory? || r.InvalidParameters?)
    ensures if r.InvalidParameters? then
              from == to || Unlawful(share, access, old(AllTops(vms))[from], level, old(AllTops(vms))[to], level,
                                     address, address + count * PAGE_SIZE)
            else
              from != to && Lawful(share, access, old(AllTops(vms))[from], level, old(AllTops(vms))[to], level,
                                   address, address + count * PAGE_SIZE, plan)
    ensures if r.Success? then
              Handed(old(AllTops(vms)), AllTops(vms), level, from, to, address, address + count * PAGE_SIZE,
                     plan.from, plan.to)
            else AllSame(old(AllTops(vms)), AllTops(vms), level)
  {
    hide RootOk, P.MPool.Valid, Tables, SameMeaning, Rewritten, Lawful, Unlawful, Leads, Held, Unlocked, AllSame;
    ghost var all, held := AllTops(vms), Held(vms[from], vms[to], pool);
    TeamWorld(vms, level, pool);
    assert Fits(vms[from], level, vms[0].count, pool);
    if from != to { TeamPair(vms, level, pool, from, to); }
    SameAsItself(all[from], level);
    SameAsItself(all[to], level);
    OthersApart(vms, level, pool, from, to);
    ghost var sent;
    r, plan, sent := SpciShareMemory(vms[to], vms[from], address, count, access, share, pool, drain);
    TeamAgain(vms, level, pool, from, to, held, vms[0].count);
    TeamWorld(vms, level, pool);
    assert Within(all, AllTops(vms), level, from, to);
    if !r.Success? { OthersSame(all, AllTops(vms), level, from, to); }
    if sent.None? {
      run := NothingMoved(all, AllTops(vms), level, from, to, fs);
    } else {
      LawfulAligned(share, access, all[from], all[to], level, address, address + count * PAGE_SIZE, plan);
      PagesOfCall(address, count);
      ghost var c := Message(from, to, address / PAGE_SIZE, address / PAGE_SIZE + count, share, access, plan);
      run := MessageRun(all, AllTops(vms), level, c, r.Success?, sent.value, fs);
    }
  }

  lemma LawfulAligned(share: MemoryShare, access: Access, from: seq<Entries.Entry>, to: seq<Entries.Entry>,
                      level: nat, begin: nat, end: nat, plan: Sharing.Plan)
    requires Tables(from, level) && Tables(to, level) && Lawful(share, access, from, level, to, level, begin, end, plan)
    ensures begin % PAGE_SIZE == 0 && end % PAGE_SIZE == 0
  {
  }

  lemma OthersApart(vms: seq<PT.PageTable>, level: nat, pool: P.MPool, from: nat, to: nat)
    requires Team(vms, level, pool) && from < |vms| && to < |vms|
    ensures forall v | 0 <= v < |vms| && v != from && v != to :: vms[v].store.Keys !! Held(vms[from], vms[to], pool)
  {
    hide RootOk, P.MPool.Valid;
    forall v | 0 <= v < |vms| && v != from && v != to ensures vms[v].store.Keys !! Held(vms[from], vms[to], pool) {
      assert Fits(vms[v], level, vms[0].count, pool);
      assert vms[if v < from then v else from].store.Keys !! vms[if v < from then from else v].store.Keys;
      assert vms[if v < to then v else to].store.Keys !! vms[if v < to then to else v].store.Keys;
    }
  }

  /** After a call of two VMs that got no new pages, all tables and the pool are still apart. */
  lemma TeamAgain(vms: seq<PT.PageTable>, level: nat, pool: P.MPool, from: nat, to: nat, held: set<nat>, count: nat)
    requires from < |vms| && to < |vms| && pool.Valid() && vms[0].count == count
    requires forall v | 0 <= v < |vms| ::
               vms[v].Valid() && vms[v] !in pool.Repr && vms[v].maxLevel == level && vms[v].count == count
    requires forall v, w | 0 <= v < w < |vms| :: vms[v] != vms[w]
    requires forall v, w | 0 <= v < w < |vms| && v != from && v != to && w != from && w != to ::
               vms[v].store.Keys !! vms[w].store.Keys
    requires from != to ==> vms[from].store.Keys !! vms[to].store.Keys
    requires vms[from].store.Keys !! pool.avail && vms[to].store.Keys !! pool.avail &&
             Held(vms[from], vms[to], pool) <= held
    requires forall v | 0 <= v < |vms| && v != from && v != to :: vms[v].store.Keys !! held
    ensures Team(vms, level, pool)
  {
    hide RootOk, P.MPool.Valid, PT.PageTable.Valid;
    forall v | 0 <= v < |vms| && v != from && v != to
      ensures vms[v].store.Keys !! vms[from].store.Keys && vms[v].store.Keys !! vms[to].store.Keys &&
              vms[v].store.Keys !! pool.avail
    {
      StayApart(vms[v].store.Keys, held, vms[from].store.Keys, vms[to].store.Keys, pool.avail);
    }
  }

  // ---- The older share call ------------------------------------------------------------------

  lemma OldShareRun(all: seq<seq<Entries.Entry>>, all': seq<seq<Entries.Entry>>, level: nat, c: Call, ok: bool,
                    sent: seq<Entries.Entry>, fs: set<Flight>)
    returns (run: seq<Machine>)
    requires Within(all, all', level, c.from, c.to) && c.from != c.to && Unlocked(fs, c.from) && Unlocked(fs, c.to) &&
             c.OldShare?
    requires Shareable(c.hf, all[c.from], all[c.to], level, c.lo * PAGE_SIZE, c.hi * PAGE_SIZE)
    requires Rewritten(all[c.from], sent, level, c.lo * PAGE_SIZE, c.hi * PAGE_SIZE, ToAttrs(ShareModes(c.hf).0))
    requires ok ==> sent == all'[c.from]
    requires ok ==> Rewritten(all[c.to], all'[c.to], level, c.lo * PAGE_SIZE, c.hi * PAGE_SIZE,
                              ToAttrs(ShareModes(c.hf).1))
    requires !ok ==> SameMeaning(all[c.from], all'[c.from], level) && SameMeaning(all[c.to], all'[c.to], level)
    ensures Leads(run, level, all, all', fs)
  {
    hide Rewritten, Tables, ModeState, ModeOf, SameMeaning, Leads, Repaged, ShareModes, ShareAllowed;
    var row := ShareRow(c.hf, ModeOf(all[c.from], level, c.lo * PAGE_SIZE, c.hi * PAGE_SIZE).value);
    assert Checked(all[c.from], all[c.to], level, c, row);
    CheckedGuards(all[c.from], all[c.to], level, c, row);
    RewrittenRepages(all[c.from], sent, level, c.lo, c.hi, ShareModes(c.hf).0);
    if ok {
      RewrittenRepages(all[c.to], all'[c.to], level, c.lo, c.hi, ShareModes(c.hf).1);
      run := Moved(all, all', level, c, row, fs);
    } else {
      run := TakenBack(all, all', level, c, row, sent, fs);
    }
  }

  /** `share_memory` between VMs `from` and `to`, while the calls in `fs` are in flight elsewhere. */
  method ShareOld(vms: seq<PT.PageTable>, from: nat, to: nat, address: nat, size: nat, share: HfShare, level: nat,
                  pool: P.MPool, takes: nat, clears: bool, drain: (nat, nat), ghost fs: set<Flight>)
    returns (ok: bool, ghost run: seq<Machine>)
    requires Team(vms, level, pool) && from < |vms| && to < |vms| && Unlocked(fs, from) && Unlocked(fs, to)
    modifies vms[from], vms[to], pool.Repr
    ensures Team(vms, level, pool) && Leads(run, level, old(AllTops(vms)), AllTops(vms), fs)
    ensures World(old(AllTops(vms)), level)
    ensures ok ==>
              && Handed(old(AllTops(vms)), AllTops(vms), level, from, to, address, address + size,
                        ShareModes(share).0, ShareModes(share).1)
              && Shareable(share, old(AllTops(vms))[from], old(AllTops(vms))[to], level, address, address + size)
    ensures !ok ==> AllSame(old(AllTops(vms)), AllTops(vms), level)
  {
    hide RootOk, P.MPool.Valid, Tables, SameMeaning, Rewritten, Shareable, ShareModes, Leads, Held, Unlocked, AllSame;
    ghost var all, held := AllTops(vms), Held(vms[from], vms[to], pool);
    TeamWorld(vms, level, pool);
    assert Fits(vms[from], level, vms[0].count, pool);
    if from != to { TeamPair(vms, level, pool, from, to); }
    SameAsItself(all[from], level);
    SameAsItself(all[to], level);
    OthersApart(vms, level, pool, from, to);
    ghost var sent;
    ok, sent := ShareMemory(vms[to], vms[from], address, size, share, pool, takes, clears, drain);
    TeamAgain(vms, level, pool, from, to, held, vms[0].count);
    TeamWorld(vms, level, pool);
    assert Within(all, AllTops(vms), level, from, to);
    if !ok { OthersSame(all, AllTops(vms), level, from, to); }
    if sent.None? {
      run := NothingMoved(all, AllTops(vms), level, from, to, fs);
    } else {
      ShareableAligned(share, all[from], all[to], level, address, address + size);
      ghost var c := OldShare(from, to, address / PAGE_SIZE, (address + size) / PAGE_SIZE, share);
      assert address == c.lo * PAGE_SIZE && address + size == c.hi * PAGE_SIZE;
      run := OldShareRun(all, AllTops(vms), level, c, ok, sent.value, fs);
    }
  }

  // ---- Mailbox setup -------------------------------------------------------------------------

  lemma OnePage(page: nat)
    ensures (page + 1) * PAGE_SIZE == page * PAGE_SIZE + PAGE_SIZE
  {
  }

  /** What the updates of a setup do to the pages. */
  lemma StagesRepage(tops: seq<Entries.Entry>, level: nat, send: nat, recv: nat, st: Steps)
    requires Tables(tops, level) && Stages(tops, level, send * PAGE_SIZE, recv * PAGE_SIZE, st) && send != recv
    requires OwnedPage(tops, level, send) && OwnedPage(tops, level, recv)
    ensures PageView(tops, level, send).OwnerExclusive?
    ensures st.sent.Some? ==> Repaged(tops, st.sent.value, level, send, send + 1, BorrowerShared)
    ensures st.both.Some? ==>
              st.sent.Some? && Repaged(st.sent.value, st.both.value, level, recv, recv + 1, BorrowerShared)
    ensures st.back.Some? ==> st.both.Some? && SameMeaning(st.sent.value, st.back.value, level)
    ensures st.back.Some? ==> Repaged(st.both.value, st.back.value, level, recv, recv + 1, OwnerExclusive)
  {
    hide Rewritten, Tables, SameMeaning, Repaged, OwnedPage, PageView;
    OwnedPageView(tops, level, send);
    OwnedPageView(tops, level, recv);
    OnePage(send);
    OnePage(recv);
    if st.sent.Some? {
      RewrittenRepages(tops, st.sent.value, level, send, send + 1, SEND_MODE);
      RepagedSize(tops, st.sent.value, level, send, send + 1, BorrowerShared);
    }
    if st.both.Some? {
      RewrittenRepages(st.sent.value, st.both.value, level, recv, recv + 1, RECV_MODE);
    }
    if st.back.Some? {
      OtherPageStays(tops, st.sent.value, level, send, recv);
      BackRepages(st.sent.value, st.both.value, st.back.value, level, recv, recv + 1, BorrowerShared, OwnerExclusive);
    }
  }

  lemma OtherPageStays(tops: seq<Entries.Entry>, tops': seq<Entries.Entry>, level: nat, page: nat, other: nat)
    requires Repaged(tops, tops', level, page, page + 1, BorrowerShared) && page != other
    ensures PageView(tops', level, other) == PageView(tops, level, other)
  {
    hide PageView;
  }

  lemma SetupRun(all: seq<seq<Entries.Entry>>, all': seq<seq<Entries.Entry>>, level: nat, v: nat, send: nat,
                 recv: nat, ok: bool, st: Steps, fs: set<Flight>)
    returns (run: seq<Machine>)
    requires Within(all, all', level, v, v) && Unlocked(fs, v) && send != recv
    requires OwnedPage(all[v], level, send) && OwnedPage(all[v], level, recv)
    requires Stages(all[v], level, send * PAGE_SIZE, recv * PAGE_SIZE, st) && st.sent.Some?
    requires if ok then st.both == Some(all'[v])
             else SameMeaning(all[v], all'[v], level) && (st.both.Some? ==> st.back.Some?)
    ensures Leads(run, level, all, all', fs)
  {
    hide OwnedPage, Stages, SameMeaning, Tables, TableRun, Repaged, PageView;
    StagesRepage(all[v], level, send, recv, st);
    var f := Setup(v, send, recv, false);
    var m0, m1 := Machine(all, fs), Machine(all[v := st.sent.value], fs + {f});
    assert Locks(f, v) && Locks(f.(both := true), v);
    RepagedSize(all[v], st.sent.value, level, send, send + 1, BorrowerShared);
    WorldWith(all, level, v, st.sent.value);
    RunStart(m0, level);
    RunMore([m0], m1, level, TakeSend(v, send, recv));
    assert [m0] + [m1] == [m0, m1];
    if st.both.None? {
      BackRepages(all[v], st.sent.value, all'[v], level, send, send + 1, BorrowerShared, OwnerExclusive);
      assert m1.flights - {f} == fs;
      RunMore([m0, m1], Machine(all', fs), level, BackSend(f));
      run := [m0, m1] + [Machine(all', fs)];
    } else {
      run := SetupBoth(all, all', level, v, send, recv, ok, st, fs, [m0, m1]);
    }
  }

  /** The stages of a setup from its second update on. */
  lemma SetupBoth(all: seq<seq<Entries.Entry>>, all': seq<seq<Entries.Entry>>, level: nat, v: nat, send: nat,
                  recv: nat, ok: bool, st: Steps, fs: set<Flight>, run0: seq<Machine>)
    returns (run: seq<Machine>)
    requires Within(all, all', level, v, v) && Unlocked(fs, v) && send != recv && st.sent.Some? && st.both.Some?
    requires PageView(all[v], level, send).OwnerExclusive? &&
             Repaged(all[v], st.sent.value, level, send, send + 1, BorrowerShared)
    requires Repaged(st.sent.value, st.both.value, level, recv, recv + 1, BorrowerShared)
    requires !ok ==> st.back.Some? && SameMeaning(st.sent.value, st.back.value, level)
    requires !ok ==> Repaged(st.both.value, st.back.value, level, recv, recv + 1, OwnerExclusive)
    requires if ok then st.both == Some(all'[v]) else SameMeaning(all[v], all'[v], level)
    requires run0 != [] && TableRun(run0, level) && run0[0] == Machine(all, fs)
    requires run0[|run0| - 1] == Machine(all[v := st.sent.value], fs + {Setup(v, send, recv, false)})
    ensures Leads(run, level, all, all', fs)
  {
    hide SameMeaning, Tables, TableRun, Repaged, PageView;
    var f, g := Setup(v, send, recv, false), Setup(v, send, recv, true);
    assert Locks(f, v) && Locks(g, v);
    RepagedSize(all[v], st.sent.value, level, send, send + 1, BorrowerShared);
    RepagedSize(st.sent.value, st.both.value, level, recv, recv + 1, BorrowerShared);
    WorldWith(all, level, v, st.sent.value);
    WorldWith(all, level, v, st.both.value);
    var m1, m2 := Machine(all[v := st.sent.value], fs + {f}), Machine(all[v := st.both.value], fs + {g});
    assert m1.flights - {f} + {g} == m2.flights && m2.flights - {g} + {f} == m1.flights;
    RunMore(run0, m2, level, TurnRecv(f));
    var run1 := run0 + [m2];
    if ok {
      assert m2.flights - {g} == fs && all[v := all'[v]] == all';
      RunMore(run1, Machine(all', fs), level, SetUp(g));
      run := run1 + [Machine(all', fs)];
    } else {
      RepagedSize(st.both.value, st.back.value, level, recv, recv + 1, OwnerExclusive);
      WorldWith(all, level, v, st.back.value);
      var m3 := Machine(all[v := st.back.value], fs + {f});
      RunMore(run1, m3, level, TurnRecv(g));
      var run2 := run1 + [m3];
      SendBack(all[v], st.sent.value, st.back.value, all'[v], level, send);
      assert m3.flights - {f} == fs;
      RunMore(run2, Machine(all', fs), level, BackSend(f));
      run := run2 + [Machine(all', fs)];
    }
  }

  lemma SendBack(tops: seq<Entries.Entry>, sent: seq<Entries.Entry>, back: seq<Entries.Entry>,
                 tops': seq<Entries.Entry>, level: nat, send: nat)
    requires Repaged(tops, sent, level, send, send + 1, BorrowerShared) && PageView(tops, level, send).OwnerExclusive?
    requires SameMeaning(sent, back, level) && SameMeaning(tops, tops', level)
    ensures Repaged(back, tops', level, send, send + 1, OwnerExclusive)
  {
    hide PageView, RawAt;
    forall p: nat
      ensures PageView(tops', level, p) == if send <= p < send + 1 then OwnerExclusive else PageView(back, level, p)
    {
      Refinement.SameView(tops, tops', level, p);
      Refinement.SameView(sent, back, level, p);
    }
  }

  /** `configure` by VM `v`, while the calls in `fs` are in flight elsewhere. */
  method SetUpMailbox(vms: seq<PT.PageTable>, v: nat, vm: Vm, send: nat, recv: nat, level: nat, pool: P.MPool,
                      takes: nat, stage1: bool, n: nat, ghost fs: set<Flight>)
    returns (ok: bool, ghost run: seq<Machine>)
    requires Team(vms, level, pool) && v < |vms| && vm.ptable == vms[v] && vm !in pool.Repr && Unlocked(fs, v)
    modifies vm, vms[v], pool.Repr
    ensures Team(vms, level, pool) && Leads(run, level, old(AllTops(vms)), AllTops(vms), fs)
    ensures World(old(AllTops(vms)), level)
    ensures ok ==>
              && old(vm.Configurable(send, recv)) && vm.send == send && vm.recv == recv
              && BothRewritten(old(AllTops(vms))[v], AllTops(vms)[v], level, send, recv)
              && forall w | 0 <= w < |vms| && w != v :: AllTops(vms)[w] == old(AllTops(vms))[w]
    ensures !ok ==>
              AllSame(old(AllTops(vms)), AllTops(vms), level) && vm.send == old(vm.send) && vm.recv == old(vm.recv)
  {
    hide RootOk, P.MPool.Valid, Tables, SameMeaning, BothRewritten, World, ModeOf, Leads, Held, Unlocked, Stages,
      AllSame;
    ghost var all, held := AllTops(vms), Held(vms[v], vms[v], pool);
    TeamWorld(vms, level, pool);
    assert Fits(vms[v], level, vms[0].count, pool);
    HeldIs(vms[v], vms[v], pool);
    OthersApart(vms, level, pool, v, v);
    ghost var st;
    ok, st := vm.Configure(send, recv, pool, takes, stage1, n);
    HeldIs(vms[v], vms[v], pool);
    OwnPages(vms[v], pool, vm);
    TeamAgain(vms, level, pool, v, v, held, vms[0].count);
    TeamWorld(vms, level, pool);
    assert Within(all, AllTops(vms), level, v, v);
    if !ok { OthersSame(all, AllTops(vms), level, v, v); }
    if st.sent.None? {
      StagesNeedSend(all[v], level, send, recv, st);
      run := NothingMoved(all, AllTops(vms), level, v, v, fs);
    } else {
      ghost var s, t := send / PAGE_SIZE, recv / PAGE_SIZE;
      assert send == s * PAGE_SIZE && recv == t * PAGE_SIZE;
      run := SetupRun(all, AllTops(vms), level, v, s, t, ok, st, fs);
    }
  }

  lemma OwnPages(t: PT.PageTable, pool: P.MPool, vm: Vm)
    requires vm.ptable == t
    ensures vm.Held(pool) + t.store.Keys == vm.Held(pool)
  {
  }

  lemma StagesNeedSend(tops: seq<Entries.Entry>, level: nat, send: nat, recv: nat, st: Steps)
    requires Stages(tops, level, send, recv, st) && st.sent.None?
    ensures st.both.None?
  {
  }

  // ---- Any sequence of calls -----------------------------------------------------------------

  /** A call that some VM makes; what is not decided by its arguments is given by the other fields. */
  datatype Request =
    | Sends(from: nat, to: nat, address: nat, count: nat, access: Access, share: MemoryShare, drain3: (nat, nat, nat))
    | Shares(from: nat, to: nat, address: nat, size: nat, hf: HfShare, takes: nat, clears: bool, drain2: (nat, nat))
    | Configures(vm: nat, send: nat, recv: nat, takes: nat, stage1: bool, n: nat)

  /** One VM object for each table. */
  ghost predicate Guests(guests: seq<Vm>, vms: seq<PT.PageTable>, pool: P.MPool) {
    |guests| == |vms| && forall v | 0 <= v < |vms| :: guests[v].ptable == vms[v] && guests[v] !in pool.Repr
  }

  /** Makes a call; one that names a VM that does not exist is refused. */
  method Make(vms: seq<PT.PageTable>, guests: seq<Vm>, q: Request, level: nat, pool: P.MPool)
    returns (ghost run: seq<Machine>)
    requires Team(vms, level, pool) && Guests(guests, vms, pool)
    modifies vms, guests, pool.Repr
    ensures Team(vms, level, pool) && Leads(run, level, old(AllTops(vms)), AllTops(vms), {})
  {
    hide P.MPool.Valid, Team, Leads;
    match q {
      case Sends(from, to, address, count, access, share, drain) =>
        if from < |vms| && to < |vms| {
          var r;
          ghost var plan;
          r, plan, run := ShareMessage(vms, from, to, address, count, access, share, level, pool, drain, {});
          return;
        }
      case Shares(from, to, address, size, hf, takes, clears, drain) =>
        if from < |vms| && to < |vms| {
          var r;
          r, run := ShareOld(vms, from, to, address, size, hf, level, pool, takes, clears, drain, {});
          return;
        }
      case Configures(vm, send, recv, takes, stage1, n) =>
        if vm < |vms| {
          var r;
          r, run := SetUpMailbox(vms, vm, guests[vm], send, recv, level, pool, takes, stage1, n, {});
          return;
        }
    }
    TeamWorld(vms, level, pool);
    run := NoCall(AllTops(vms), level, {});
  }

  lemma NoCall(all: seq<seq<Entries.Entry>>, level: nat, fs: set<Flight>) returns (run: seq<Machine>)
    requires World(all, level)
    ensures Leads(run, level, all, all, fs)
  {
    run := [Machine(all, fs)];
    RunStart(Machine(all, fs), level);
  }

  lemma JoinRuns(run: seq<Machine>, next: seq<Machine>, level: nat, all: seq<seq<Entries.Entry>>,
                 all1: seq<seq<Entries.Entry>>, all2: seq<seq<Entries.Entry>>)
    requires Leads(run, level, all, all1, {}) && Leads(next, level, all1, all2, {})
    ensures next != [] && Leads(run + next[1..], level, all, all2, {})
  {
    hide World, Refinement.StepAt;
    RunJoin(run, next, level);
  }

  /** Any sequence of calls, one after another, is a run of stages, and after it as before it no page belongs
      to two tables or to a table and the pool. */
  method MakeAll(vms: seq<PT.PageTable>, guests: seq<Vm>, qs: seq<Request>, level: nat, pool: P.MPool)
    returns (ghost run: seq<Machine>)
    requires Team(vms, level, pool) && Guests(guests, vms, pool)
    modifies vms, guests, pool.Repr
    ensures Team(vms, level, pool) && Leads(run, level, old(AllTops(vms)), AllTops(vms), {})
  {
    hide P.MPool.Valid, Team, Leads, AllTops;
    TeamWorld(vms, level, pool);
    run := NoCall(AllTops(vms), level, {});
    for i := 0 to |qs|
      invariant Team(vms, level, pool) && Leads(run, level, old(AllTops(vms)), AllTops(vms), {})
    {
      ghost var here := AllTops(vms);
      ghost var next := Make(vms, guests, qs[i], level, pool);
      JoinRuns(run, next, level, old(AllTops(vms)), here, AllTops(vms));
      run := run + next[1..];
    }
  }
}
