/** The hypervisor from boot on: the secondary VMs are loaded, and then calls are made. */
module Operation {
  import opened Common
  import opened Roots
  import opened Ownership
  import opened Refinement
  import opened MailboxSetup
  import opened Calls
  import opened Boot
  import opened BootTables
  import PT = PageTable
  import P = MPool

  /** What loading leaves behind is ready for calls. */
  lemma FleetIsTeam(primary: PT.PageTable, vms: seq<PT.PageTable>, pool: P.MPool)
    requires Fleet(primary, vms, pool)
    ensures Team([primary] + vms, primary.maxLevel, pool)
  {
    hide RootOk, P.MPool.Valid;
    var all := [primary] + vms;
    forall v | 0 <= v < |all| ensures Calls.Fits(all[v], primary.maxLevel, primary.count, pool) {
      if v > 0 { assert Member(primary, vms[v - 1], pool); }
    }
    forall v, w | 0 <= v < w < |all| ensures all[v] != all[w] && all[v].store.Keys !! all[w].store.Keys {
      assert Member(primary, vms[w - 1], pool);
    }
  }

  lemma TreesAreTops(primary: PT.PageTable, vms: seq<PT.PageTable>, all: seq<seq<Entries.Entry>>)
    requires Trees(primary, vms, all)
    ensures AllTops([primary] + vms) == all
  {
    var tops := AllTops([primary] + vms);
    forall v | 0 <= v < |all| ensures tops[v] == all[v] {
      if v > 0 { assert all[v - 1 + 1] == vms[v - 1].tops; }
    }
  }

  /** A VM object for each table. */
  method Welcome(vms: seq<PT.PageTable>) returns (guests: seq<Vm>)
    ensures |guests| == |vms| && (forall v | 0 <= v < |vms| :: guests[v].ptable == vms[v]) &&
            forall g | g in guests :: fresh(g)
  {
    guests := [];
    while |guests| < |vms|
      invariant |guests| <= |vms| && (forall v | 0 <= v < |guests| :: guests[v].ptable == vms[v]) &&
                forall g | g in guests :: fresh(g)
    {
      var vm := new Vm(vms[|guests|]);
      guests := guests + [vm];
    }
  }

  /** Loading followed by any calls: no page ever belongs to two tables or to a table and the pool, and from
      orderly memory the whole is a run from exclusive ownership on. */
  method BootAndServe(mem: seq<Range>, reqs: seq<Boot.Request>, primary: PT.PageTable, slots: nat, pool: P.MPool,
                      calls: seq<Calls.Request>)
    returns (vms: seq<PT.PageTable>, ghost run: seq<Machine>)
    requires |mem| <= MAX_MEM_RANGES && InWords(mem) && Fleet(primary, [], pool) &&
             Tables(primary.tops, primary.maxLevel)
    requires Below(mem, Min(primary.End(), PT.PHYS_END - 1))
    requires forall p: nat ::
               var s := PageView(primary.tops, primary.maxLevel, p); s.NoAccess? || s.OwnerExclusive?
    modifies primary, pool.Repr
    ensures |vms| > 0 && vms[0] == primary && Team(vms, primary.maxLevel, pool)
    ensures TableRun(run, primary.maxLevel) && run[|run| - 1] == Machine(AllTops(vms), {})
    ensures Orderly(mem) ==> FromInitial(run, primary.maxLevel)
  {
    hide P.MPool.Valid, RootOk, Tables, PageView, Fleet, Carving, BootInv, Initial, World, Team, Trees, Leads, Abs,
      AllTops, Served, Gaps, Allotted, Orderly, InWords, Below;
    var r, regions, others, reserved;
    ghost var avail, all, own;
    r, regions, others, reserved, avail, all, own := LoadSecondary(mem, reqs, primary, slots, pool);
    FleetIsTeam(primary, others, pool);
    TreesAreTops(primary, others, all);
    vms := [primary] + others;
    assert forall t | t in vms :: t == primary || t in others;
    var guests := Welcome(vms);
    assert forall v | 0 <= v < |vms| :: guests[v] in guests;
    assert forall v | 0 <= v < |vms| :: vms[v] in vms;
    assert forall v | 0 <= v < |vms| :: vms[v] == primary || fresh(vms[v]);
    assert forall v | 0 <= v < |guests| :: fresh(guests[v]);
    run := MakeAll(vms, guests, calls, primary.maxLevel, pool);
    RunFromBoot(run, primary.maxLevel, all, AllTops(vms));
  }

  lemma RunFromBoot(run: seq<Machine>, level: nat, all: seq<seq<Entries.Entry>>, all': seq<seq<Entries.Entry>>)
    requires Leads(run, level, all, all', {}) && World(all, level)
    ensures TableRun(run, level) && run[|run| - 1] == Machine(all', {})
    ensures Initial(Abs(all, level)) ==> FromInitial(run, level)
  {
    hide Initial, World, Refinement.StepAt;
  }
}
