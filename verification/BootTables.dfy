/** Loading the secondary VMs with real page tables: the memory of each VM is taken from the primary VM's
    table and given to a new table. */
module BootTables {
  import opened Common
  import opened Geometry
  import opened Entries
  import opened Footprint
  import opened Roots
  import opened Encoding
  import opened Transfer
  import opened Lifecycle
  import opened Ownership
  import opened Transitions
  import opened Sharing
  import opened Refinement
  import opened Boot
  import PT = PageTable
  import P = MPool

  // ---- What the calls mean -------------------------------------------------------------------

  /** The addresses of the range are unrelated to the VM and all others mean what they did. */
  ghost predicate Cleared(tops: seq<Entries.Entry>, tops': seq<Entries.Entry>, level: nat, begin: nat, end: nat) {
    && Tables(tops, level) && Tables(tops', level) && |tops'| == |tops|
    && forall a: nat | a < SpaceEnd(|tops|, level) ::
         Norm(RawAt(tops', level, a)) == if begin <= a < end then None else Norm(RawAt(tops, level, a))
  }

  lemma UnmapMeaning(ok: bool, tops: seq<Entries.Entry>, mid: seq<Entries.Entry>, fin: seq<Entries.Entry>, level: nat,
                     op: Op, had: nat)
    requires Outcome(ok, tops, mid, fin, level, op, had) && WFOp(op) && op.unmap
    ensures ok ==> Cleared(tops, fin, level, op.begin, op.end)
    ensures !ok ==> SameMeaning(tops, fin, level)
  {
    hide RawAt, RootNeed, RootCommit, WF;
    assert |fin| == |tops| by { hide Tables; OutcomeSize(ok, tops, mid, fin, level, op, had); }
    forall a: nat | a < SpaceEnd(|tops|, level)
      ensures ok ==> Norm(RawAt(fin, level, a)) == if op.begin <= a < op.end then None else Norm(RawAt(tops, level, a))
      ensures !ok ==> Norm(RawAt(fin, level, a)) == Norm(RawAt(tops, level, a))
    {
      OutcomeView(ok, tops, mid, fin, level, op, had, a);
    }
  }

  lemma RequestIs(t: PT.PageTable, r: Range, attrs: Attrs, unmap: bool)
    requires t.Valid() && Aligned(r) && r.end <= t.End() && r.end < PT.PHYS_END
    ensures PT.ClearPa(r.begin) == r.begin <= t.End()
    ensures t.Request(r.begin, r.end, attrs, unmap) == Op(r.begin, r.end, attrs, unmap)
    ensures WFOp(Op(r.begin, r.end, attrs, unmap))
  {
    hide RootOk, Size, SpaceEnd;
    RoundedAlready(r.begin);
    RoundedAlready(r.end);
  }

  lemma RoundedAlready(a: nat)
    requires a % PAGE_SIZE == 0 && a < PT.PHYS_END
    ensures RoundUpToPage(a) == a && PT.ClearPa(a) == a
  {
  }

  // ---- Ownership during loading --------------------------------------------------------------

  /** Page `p` starts in the range. */
  predicate HasPage(r: Range, p: nat) {
    Has(r, p * PAGE_SIZE)
  }

  /** The primary VM owns pages exclusively or not at all, and none that were taken from it. */
  ghost predicate PrimaryOk(tops: seq<Entries.Entry>, level: nat, regions: seq<Region>)
    requires Tables(tops, level)
  {
    && (forall p: nat :: PageView(tops, level, p).NoAccess? || PageView(tops, level, p).OwnerExclusive?)
    && (forall k, p: nat | 0 <= k < |regions| && regions[k].denied && HasPage(regions[k].range, p) ::
        PageView(tops, level, p).NoAccess?)
  }

  /** A secondary VM owns no pages but those of its region, exclusively; all of them if it was given them. */
  ghost predicate SecondaryOk(tops: seq<Entries.Entry>, level: nat, r: Region)
    requires Tables(tops, level)
  {
    && (forall p: nat ::
          PageView(tops, level, p).NoAccess? || (PageView(tops, level, p).OwnerExclusive? && HasPage(r.range, p)))
    && (r.granted ==> forall p: nat | HasPage(r.range, p) :: PageView(tops, level, p).OwnerExclusive?)
  }

  /** `all` are the tables of the primary and of the VMs created so far; VM `k` has region `own[k]`. */
  ghost predicate BootInv(all: seq<seq<Entries.Entry>>, level: nat, regions: seq<Region>, own: seq<nat>) {
    && World(all, level) && |all| == |own| + 1 && PrimaryOk(all[0], level, regions)
    && (forall k | 0 <= k < |own| :: own[k] < |regions| && regions[own[k]].denied)
    && (forall k | 0 <= k < |own| :: SecondaryOk(all[k + 1], level, regions[own[k]]))
    && (forall k, l | 0 <= k < l < |own| :: own[k] < own[l])
  }

  /** Whoever owns a page is its only owner. */
  lemma BootInvInitial(mem: seq<Range>, avail: seq<Range>, all: seq<seq<Entries.Entry>>, level: nat,
                       regions: seq<Region>, own: seq<nat>)
    requires BootInv(all, level, regions, own) && Carving(mem, avail, regions)
    ensures Initial(Abs(all, level))
  {
    hide PageView, HasPage;
    var s := Abs(all, level);
    forall p: nat, v | 0 <= v < |s.views|
      ensures s.views[v](p) == PageView(all[v], level, p) && (s.views[v](p).NoAccess? || s.views[v](p).OwnerExclusive?)
    {
      if v > 0 { assert SecondaryOk(all[v - 1 + 1], level, regions[own[v - 1]]); }
    }
    forall p: nat, v, w | 0 <= v < w < |s.views| ensures s.views[v](p).NoAccess? || s.views[w](p).NoAccess? {
      OneOwner(mem, avail, all, level, regions, own, v, w, p);
    }
  }

  lemma OneOwner(mem: seq<Range>, avail: seq<Range>, all: seq<seq<Entries.Entry>>, level: nat, regions: seq<Region>,
                 own: seq<nat>, v: nat, w: nat, p: nat)
    requires BootInv(all, level, regions, own) && Carving(mem, avail, regions) && v < w < |all|
    ensures PageView(all[v], level, p).NoAccess? || PageView(all[w], level, p).NoAccess?
  {
    hide PageView, Tables;
    var r := regions[own[w - 1]];
    assert SecondaryOk(all[w - 1 + 1], level, r) && r.denied;
    if v > 0 {
      var q := regions[own[v - 1]];
      assert SecondaryOk(all[v - 1 + 1], level, q) && own[v - 1] < own[w - 1];
      assert Apart(q.range, r.range);
      assert !(Has(q.range, p * PAGE_SIZE) && Has(r.range, p * PAGE_SIZE));
    }
  }

  lemma ClearedView(tops: seq<Entries.Entry>, tops': seq<Entries.Entry>, level: nat, r: Range, p: nat)
    requires Cleared(tops, tops', level, r.begin, r.end)
    ensures PageView(tops', level, p) == if HasPage(r, p) then NoAccess else PageView(tops, level, p)
  {
    hide RawAt, WF, Norm;
  }

  /** Carving a region that stays with the primary VM changes nothing. */
  lemma CarveKeeps(all: seq<seq<Entries.Entry>>, level: nat, regions: seq<Region>, own: seq<nat>, r: Region)
    requires BootInv(all, level, regions, own) && !r.denied
    ensures BootInv(all, level, regions + [r], own)
  {
    hide PageView, Tables, HasPage;
  }

  lemma DenyKeeps(all: seq<seq<Entries.Entry>>, level: nat, regions: seq<Region>, own: seq<nat>, r: Region,
                  fin: seq<Entries.Entry>)
    requires BootInv(all, level, regions, own) && Cleared(all[0], fin, level, r.range.begin, r.range.end)
    ensures BootInv(all[0 := fin], level, regions + [r], own)
  {
    hide PageView, WF, RawAt, HasPage;
    var all', regions' := all[0 := fin], regions + [r];
    forall p: nat
      ensures PageView(fin, level, p) == if HasPage(r.range, p) then NoAccess else PageView(all[0], level, p)
    {
      ClearedView(all[0], fin, level, r.range, p);
    }
    forall k | 0 <= k < |own| ensures SecondaryOk(all'[k + 1], level, regions'[own[k]]) {
      assert SecondaryOk(all[k + 1], level, regions[own[k]]);
    }
  }

  /** The table a new VM ends up with: empty, or mapping exactly its region. */
  lemma NewTableOk(root: nat, count: nat, level: nat, fin: seq<Entries.Entry>, r: Region)
    requires Tables(AbsentTops(root, count), level) && r.range.end <= SpaceEnd(count, level)
    requires r.granted ==> Rewritten(AbsentTops(root, count), fin, level, r.range.begin, r.range.end, ToAttrs(RWX))
    requires !r.granted ==> SameMeaning(AbsentTops(root, count), fin, level)
    ensures Tables(fin, level) && SecondaryOk(fin, level, r)
  {
    hide RawAt, WF;
    forall p: nat
      ensures PageView(fin, level, p).NoAccess? || (PageView(fin, level, p).OwnerExclusive? && HasPage(r.range, p))
      ensures r.granted && HasPage(r.range, p) ==> PageView(fin, level, p).OwnerExclusive?
    {
      if p * PAGE_SIZE < SpaceEnd(count, level) {
        AbsentView(root, count, level, p * PAGE_SIZE);
      }
    }
  }

  lemma CreateKeeps(all: seq<seq<Entries.Entry>>, all1: seq<seq<Entries.Entry>>, level: nat, regions: seq<Region>,
                    r: Region, own: seq<nat>, fin: seq<Entries.Entry>)
    requires BootInv(all, level, regions, own) && BootInv(all1, level, regions + [r], own) && r.denied
    requires Tables(fin, level) && |fin| == |all1[0]| && SecondaryOk(fin, level, r)
    ensures BootInv(all1 + [fin], level, regions + [r], own + [|regions|])
  {
    hide PageView, Tables, HasPage;
    var all', own', regions' := all1 + [fin], own + [|regions|], regions + [r];
    forall k | 0 <= k < |own'| ensures SecondaryOk(all'[k + 1], level, regions'[own'[k]]) {
      if k < |own| { assert SecondaryOk(all1[k + 1], level, regions'[own[k]]); }
    }
  }

  // ---- Loading -------------------------------------------------------------------------------

  /** The page tables of the primary and of the other VMs: all of one shape, with no page in common, and
      none of their pages free. */
  ghost predicate Fleet(primary: PT.PageTable, vms: seq<PT.PageTable>, pool: P.MPool)
    reads primary, vms, pool, pool.Repr
  {
    && primary.Valid() && primary.Ready(pool)
    && (forall i | 0 <= i < |vms| :: Member(primary, vms[i], pool))
    && (forall i, j | 0 <= i < j < |vms| :: vms[i] != vms[j] && vms[i].store.Keys !! vms[j].store.Keys)
  }

  ghost predicate Member(primary: PT.PageTable, t: PT.PageTable, pool: P.MPool)
    reads primary, t, pool, pool.Repr
  {
    && t != primary && t.Valid() && t.Ready(pool) && t.store.Keys !! primary.store.Keys
    && t.maxLevel == primary.maxLevel && t.count == primary.count
  }

  /** Takes a region away from the primary VM. */
  method Deny(primary: PT.PageTable, vms: seq<PT.PageTable>, r: Range, pool: P.MPool) returns (ok: bool)
    requires Fleet(primary, vms, pool) && Aligned(r) && r.end <= primary.End() && r.end < PT.PHYS_END
    modifies primary`store, primary`tops, pool.Repr
    ensures Fleet(primary, vms, pool)
    ensures ok ==> Cleared(old(primary.tops), primary.tops, primary.maxLevel, r.begin, r.end)
    ensures !ok ==> SameMeaning(old(primary.tops), primary.tops, primary.maxLevel)
  {
    hide Updated, Outcome, RootOk, P.MPool.Valid, Total, PT.ClearPa, Cleared, SameMeaning;
    RequestIs(primary, r, ToAttrs(PT.UNRELATED), true);
    ghost var mid, evs1, evs2;
    ok, mid, evs1, evs2 := primary.Unmap(r.begin, r.end, pool);
    ghost var op := Op(r.begin, r.end, ToAttrs(PT.UNRELATED), true);
    UpdatedOutcome(ok, old(primary.Snap(pool)), primary.Snap(pool), old(primary.tops), mid, primary.tops,
                   primary.maxLevel, op, evs1, evs2);
    UnmapMeaning(ok, old(primary.tops), mid, primary.tops, primary.maxLevel, op, |old(pool.avail)|);
    forall i | 0 <= i < |vms| ensures Member(primary, vms[i], pool) {
      OthersUntouched(old(primary.Snap(pool)), primary.Snap(pool), vms[i].store.Keys);
    }
  }

  lemma FromFree(m: Mem, free: set<nat>, others: set<nat>)
    requires Total(m) == free && others !! free
    ensures others !! m.store.Keys && others !! m.avail
  {
    assert forall q | q in others :: q !in Total(m);
  }

  /** Creates a page table for a VM and maps its region. */
  method Create(primary: PT.PageTable, vms: seq<PT.PageTable>, r: Range, pool: P.MPool)
    returns (t: PT.PageTable?, mapped: bool)
    requires Fleet(primary, vms, pool) && Aligned(r) && r.end <= primary.End() && r.end < PT.PHYS_END
    modifies pool.Repr
    ensures t == null ==> Fleet(primary, vms, pool)
    ensures t != null ==> fresh(t) && Fleet(primary, vms + [t], pool)
    ensures t != null ==> |t.tops| == |primary.tops| && Tables(t.tops, primary.maxLevel)
    ensures t != null ==> forall vm :: SecondaryOk(t.tops, primary.maxLevel, Region(vm, r, true, mapped))
  {
    hide Updated, Outcome, RootOk, P.MPool.Valid, Total, PT.ClearPa, SameMeaning, Rewritten, SecondaryOk, Tables,
      P.MPool.Exhausted;
    ghost var free := pool.avail;
    mapped := false;
    t := PT.PageTable.New(primary.count, primary.maxLevel, pool);
    if t == null {
      return;
    }
    ghost var was, root := t.tops, t.root;
    TablesOf(t);
    RequestIs(t, r, ToAttrs(RWX), false);
    ghost var mid, evs1, evs2;
    ghost var m := t.Snap(pool);
    mapped, mid, evs1, evs2 := t.IdentityMap(r.begin, r.end, RWX, pool);
    ghost var op := Op(r.begin, r.end, ToAttrs(RWX), false);
    UpdatedOutcome(mapped, m, t.Snap(pool), was, mid, t.tops, t.maxLevel, op, evs1, evs2);
    OutcomeMeaning(mapped, was, mid, t.tops, t.maxLevel, op, |m.avail|);
    forall vm ensures SecondaryOk(t.tops, primary.maxLevel, Region(vm, r, true, mapped)) {
      NewTableOk(root, t.count, t.maxLevel, t.tops, Region(vm, r, true, mapped));
    }
    FromFree(t.Snap(pool), free, primary.store.Keys);
    forall i | 0 <= i < |vms|
      ensures Member(primary, vms[i], pool) && vms[i] != t && vms[i].store.Keys !! t.store.Keys
    {
      FromFree(t.Snap(pool), free, vms[i].store.Keys);
    }
  }

  /** `all` are the trees of the primary's and the other VMs' tables. */
  ghost predicate Trees(primary: PT.PageTable, vms: seq<PT.PageTable>, all: seq<seq<Entries.Entry>>)
    reads primary, vms
  {
    |all| == |vms| + 1 && all[0] == primary.tops && forall k | 0 <= k < |vms| :: all[k + 1] == vms[k].tops
  }

  lemma SameKeeps(all: seq<seq<Entries.Entry>>, level: nat, regions: seq<Region>, own: seq<nat>,
                  fin: seq<Entries.Entry>)
    requires BootInv(all, level, regions, own) && SameMeaning(all[0], fin, level)
    ensures BootInv(all[0 := fin], level, regions, own)
  {
    hide PageView, WF, RawAt, HasPage;
    forall p: nat ensures PageView(fin, level, p) == PageView(all[0], level, p) {
      Refinement.SameView(all[0], fin, level, p);
    }
    forall k | 0 <= k < |own| ensures SecondaryOk(all[0 := fin][k + 1], level, regions[own[k]]) {
      assert SecondaryOk(all[k + 1], level, regions[own[k]]);
    }
  }

  /** Moves a carved region from the primary VM to a new VM, as far as that is possible; gives up if the
      primary VM cannot be denied access. */
  method Assign(primary: PT.PageTable, vms: seq<PT.PageTable>, q: Request, vm: nat, r: Range, slots: nat, pool: P.MPool,
                ghost regions: seq<Region>, ghost own: seq<nat>, ghost all: seq<seq<Entries.Entry>>)
    returns (ok: bool, region: Region, vms': seq<PT.PageTable>, ghost own': seq<nat>,
             ghost all': seq<seq<Entries.Entry>>)
    requires Fleet(primary, vms, pool) && Aligned(r) && r.end <= primary.End() && r.end < PT.PHYS_END
    requires Trees(primary, vms, all) && BootInv(all, primary.maxLevel, regions, own)
    modifies primary`store, primary`tops, pool.Repr
    ensures Fleet(primary, vms', pool) && Trees(primary, vms', all') && vms <= vms' &&
            fresh(set t | t in vms' && t !in vms)
    ensures region.vm == vm && region.range == r && BootInv(all', primary.maxLevel, regions + [region], own')
  {
    hide BootInv, Cleared, SameMeaning, P.MPool.Valid, RootOk, SecondaryOk, Tables;
    ok, region, vms', own', all' := true, Region(vm, r, false, false), vms, own, all;
    CarveKeeps(all, primary.maxLevel, regions, own, region);
    if !q.copies {
      return;
    }
    ok := Deny(primary, vms, r, pool);
    all' := all[0 := primary.tops];
    if !ok {
      SameKeeps(all, primary.maxLevel, regions + [region], own, primary.tops);
      return;
    }
    region := Region(vm, r, true, false);
    DenyKeeps(all, primary.maxLevel, regions, own, region, primary.tops);
    if |vms| + 1 >= slots {
      return;
    }
    var t, mapped := Create(primary, vms, r, pool);
    if t != null {
      region := Region(vm, r, true, mapped);
      DenyKeeps(all, primary.maxLevel, regions, own, region, primary.tops);
      CreateKeeps(all, all', primary.maxLevel, regions, region, own, t.tops);
      vms', own', all' := vms + [t], own + [|regions|], all' + [t.tops];
    }
  }

  /** How loading ends. A region that wraps around the address space ends the model: what happens then is up
      to the hypervisor's own table. */
  datatype LoadResult = Loaded | PrimaryKeepsAccess | TooManyRanges | Wraps

  /** The primary VM, before any other exists, owns memory exclusively or not at all. */
  lemma BootStart(tops: seq<Entries.Entry>, level: nat)
    requires Tables(tops, level)
    requires forall p: nat :: PageView(tops, level, p).NoAccess? || PageView(tops, level, p).OwnerExclusive?
    ensures BootInv([tops], level, [], [])
  {
    hide PageView, Tables;
  }

  function RangesOf(regions: seq<Region>): seq<Range> {
    seq(|regions|, k requires 0 <= k < |regions| => regions[k].range)
  }

  lemma RangesNext(regions: seq<Region>, r: Region)
    ensures RangesOf(regions + [r]) == RangesOf(regions) + [r.range]
  {
  }

  predicate Below(avail: seq<Range>, limit: nat) {
    forall i | 0 <= i < |avail| :: avail[i].end <= limit
  }

  /** Where loading stands when request `k` is next: the regions so far and the rest of the plan make up the
      whole plan, and from orderly memory regions and available ranges are still carved out of it. */
  ghost predicate Loading(mem: seq<Range>, avail: seq<Range>, regions: seq<Region>, reqs: seq<Request>, k: nat,
                          limit: nat)
    requires k <= |reqs|
  {
    && Served(reqs, regions, k) && Trimmed(mem, avail) && Below(avail, limit)
    && (Orderly(mem) ==> Carving(mem, avail, regions))
    && RangesOf(regions) + Allotted(avail, reqs, k) == Allotted(Rounded(mem), reqs, 0)
  }

  lemma LoadStarts(mem: seq<Range>, reqs: seq<Request>, limit: nat)
    requires InWords(mem) && Below(mem, limit)
    ensures InWords(Rounded(mem)) && Loading(mem, Rounded(mem), [], reqs, 0, limit)
  {
    hide Allotted, Carving, Proper, AllApart;
    RoundedTrimmed(mem);
    assert RangesOf([]) + Allotted(Rounded(mem), reqs, 0) == Allotted(Rounded(mem), reqs, 0);
    if Orderly(mem) { RoundedCarving(mem); }
  }

  /** The primary has no region of its own, nor has a VM that does not fit. */
  lemma LoadSkips(mem: seq<Range>, avail: seq<Range>, regions: seq<Region>, reqs: seq<Request>, k: nat, limit: nat)
    requires k < |reqs| && Loading(mem, avail, regions, reqs, k, limit)
    requires k == 0 || Room(avail, reqs[k]) == |avail|
    ensures Loading(mem, avail, regions, reqs, k + 1, limit)
  {
    hide Room, Trimmed, Below, Orderly, Carving, RangesOf, Rounded;
  }

  /** A region just cut off, unless it wraps around, is aligned and fits below `limit`; from orderly memory it
      does not wrap around. */
  lemma RegionFits(mem: seq<Range>, avail: seq<Range>, regions: seq<Region>, reqs: seq<Request>, k: nat, r: Range,
                   limit: nat)
    requires k < |reqs| && Loading(mem, avail, regions, reqs, k, limit) && InWords(avail) && InWords(mem)
    requires Room(avail, reqs[k]) < |avail| && r == Cut(avail, Room(avail, reqs[k]), MemSize(reqs[k]))
    ensures r.begin <= r.end ==> Aligned(r) && r.end <= limit
    ensures Orderly(mem) ==> r.begin <= r.end
  {
    hide Served, Carving, AllApart, Proper, Room, Aligned, MemSize, Trimmed, InWords, Minus, Allotted, Rounded;
    var i := Room(avail, reqs[k]);
    CutTrims(mem, avail, reqs[k], i);
    if Orderly(mem) { RoomCarves(mem, avail, regions, reqs[k], i, Region(0, r, false, false)); }
  }

  /** The region becomes that of the next VM. */
  lemma LoadNext(mem: seq<Range>, avail: seq<Range>, regions: seq<Region>, reqs: seq<Request>, k: nat, region: Region,
                 limit: nat)
    requires 0 < k < |reqs| && Loading(mem, avail, regions, reqs, k, limit) && InWords(avail) && InWords(mem)
    requires Room(avail, reqs[k]) < |avail| && region.vm == k
    requires region.range == Cut(avail, Room(avail, reqs[k]), MemSize(reqs[k]))
    requires region.range.begin <= region.range.end
    ensures Loading(mem, Left(avail, Room(avail, reqs[k]), MemSize(reqs[k])), regions + [region], reqs, k + 1, limit)
  {
    hide Served, Carving, AllApart, Proper, Room, Aligned, MemSize, Trimmed, InWords, Minus, Allotted, Rounded,
      RangesOf;
    var i := Room(avail, reqs[k]);
    CutTrims(mem, avail, reqs[k], i);
    ServedNext(reqs, regions, k, region);
    RangesNext(regions, region);
    AllottedStep(avail, reqs, k, RangesOf(regions), Allotted(Rounded(mem), reqs, 0));
    if Orderly(mem) { RoomCarves(mem, avail, regions, reqs[k], i, region); }
  }

  /** What is left of the plan after one more VM. */
  lemma AllottedStep(avail: seq<Range>, reqs: seq<Request>, k: nat, done: seq<Range>, all: seq<Range>)
    requires 0 < k < |reqs| && done + Allotted(avail, reqs, k) == all && Room(avail, reqs[k]) < |avail|
    ensures var i := Room(avail, reqs[k]);
            done + [Cut(avail, i, MemSize(reqs[k]))] + Allotted(Left(avail, i, MemSize(reqs[k])), reqs, k + 1) == all
  {
    hide Room, Cut, Left, MemSize;
  }

  /** At the end, or where loading stops early, the tables are those of the sharing protocol's start. */
  lemma LoadEnds(mem: seq<Range>, avail: seq<Range>, all: seq<seq<Entries.Entry>>, level: nat, regions: seq<Region>,
                 own: seq<nat>, reqs: seq<Request>, k: nat, limit: nat)
    requires BootInv(all, level, regions, own) && k <= |reqs| && Loading(mem, avail, regions, reqs, k, limit)
    ensures World(all, level) && |avail| == |mem| && |Gaps(mem, avail)| <= |mem|
    ensures Served(reqs, regions, |reqs|) && RangesOf(regions) <= Allotted(Rounded(mem), reqs, 0)
    ensures k == |reqs| ==> RangesOf(regions) == Allotted(Rounded(mem), reqs, 0)
    ensures Orderly(mem) ==> Carving(mem, avail, regions) && Initial(Abs(all, level))
  {
    hide Carving, Gaps, BootInv, Initial, Abs, World, Orderly;
    BootWorld(all, level, regions, own);
    if Orderly(mem) { BootInvInitial(mem, avail, all, level, regions, own); }
    FewGaps(mem, avail);
  }

  /** Loads all secondary VMs; the first VM of the manifest is the primary. Running out of reserved ranges is
      impossible. From orderly memory the regions are page-aligned, pairwise disjoint and part of the memory,
      and the tables of all VMs start the sharing protocol: every page has at most one, exclusive, owner. */
  method LoadSecondary(mem: seq<Range>, reqs: seq<Request>, primary: PT.PageTable, slots: nat, pool: P.MPool)
    returns (r: LoadResult, regions: seq<Region>, vms: seq<PT.PageTable>, reserved: seq<Range>,
             ghost avail: seq<Range>, ghost all: seq<seq<Entries.Entry>>, ghost own: seq<nat>)
    requires |mem| <= MAX_MEM_RANGES && InWords(mem) && Fleet(primary, [], pool) &&
             Tables(primary.tops, primary.maxLevel)
    requires Below(mem, Min(primary.End(), PT.PHYS_END - 1))
    requires forall p: nat ::
               var s := PageView(primary.tops, primary.maxLevel, p); s.NoAccess? || s.OwnerExclusive?
    modifies primary`store, primary`tops, pool.Repr
    ensures !r.TooManyRanges? && Served(reqs, regions, |reqs|)
    ensures RangesOf(regions) <= Allotted(Rounded(mem), reqs, 0)
    ensures r.Loaded? ==> RangesOf(regions) == Allotted(Rounded(mem), reqs, 0)
    ensures r.Loaded? ==> |avail| == |mem| && reserved == Gaps(mem, avail) && |reserved| <= MAX_MEM_RANGES
    ensures Fleet(primary, vms, pool) && Trees(primary, vms, all) && forall t | t in vms :: fresh(t)
    ensures BootInv(all, primary.maxLevel, regions, own) && World(all, primary.maxLevel)
    ensures Orderly(mem) ==> !r.Wraps? && Carving(mem, avail, regions) && Initial(Abs(all, primary.maxLevel))
  {
    hide Carving, AllApart, Gaps, BootInv, PageView, Tables, P.MPool.Valid, RootOk, Initial, Abs, World, Allotted,
      Rounded, InWords, Room, RangesOf, Cut, Left, Orderly, Below, Loading, Served;
    ghost var limit := Min(primary.End(), PT.PHYS_END - 1);
    var a := Round(mem);
    LoadStarts(mem, reqs, limit);
    regions, vms, reserved, all := [], [], [], [primary.tops];
    own := [];
    BootStart(primary.tops, primary.maxLevel);
    r := Loaded;
    var k := 0;
    while k < |reqs|
      invariant k <= |reqs| && fresh(a) && InWords(a[..]) && Loading(mem, a[..], regions, reqs, k, limit)
      invariant Fleet(primary, vms, pool) && Trees(primary, vms, all) && BootInv(all, primary.maxLevel, regions, own)
      invariant forall t | t in vms :: fresh(t)
    {
      if k == 0 {
        LoadSkips(mem, a[..], regions, reqs, k, limit);
      } else {
        ghost var was := a[..];
        var room := FindRoom(a, reqs[k]);
        if room.None? {
          LoadSkips(mem, was, regions, reqs, k, limit);
        } else {
          RegionFits(mem, was, regions, reqs, k, room.value, limit);
          if room.value.begin > room.value.end {
            r, avail := Wraps, was;
            LoadEnds(mem, was, all, primary.maxLevel, regions, own, reqs, k, limit);
            return;
          }
          var ok, region;
          ok, region, vms, own, all := Assign(primary, vms, reqs[k], k, room.value, slots, pool, regions, own, all);
          LoadNext(mem, was, regions, reqs, k, region, limit);
          regions := regions + [region];
          if !ok {
            r, avail := PrimaryKeepsAccess, a[..];
            LoadEnds(mem, avail, all, primary.maxLevel, regions, own, reqs, k + 1, limit);
            return;
          }
        }
      }
      k := k + 1;
    }
    avail := a[..];
    LoadEnds(mem, avail, all, primary.maxLevel, regions, own, reqs, k, limit);
    var ok;
    ok, reserved := UpdateReserved([], mem, a[..]);
    assert [] + Gaps(mem, avail) == Gaps(mem, avail);
    if !ok {
      r := TooManyRanges;
    }
  }

  lemma BootWorld(all: seq<seq<Entries.Entry>>, level: nat, regions: seq<Region>, own: seq<nat>)
    requires BootInv(all, level, regions, own)
    ensures World(all, level)
  {
  }

  /** From boot on, in every interleaving of the updates of sharing calls and mailbox setups, the tables of
      all VMs agree on one proper use of every page that no call is working on, and no page ever has two
      owners. */
  lemma FromBootOn(mem: seq<Range>, avail: seq<Range>, regions: seq<Region>, own: seq<nat>, level: nat,
                   run: seq<Machine>, i: nat, p: nat)
    requires TableRun(run, level) && run[0].flights == {} && BootInv(run[0].all, level, regions, own) &&
             Carving(mem, avail, regions)
    requires i < |run|
    ensures World(run[i].all, level) && FromInitial(run, level)
    ensures (forall f | f in run[i].flights :: !Covers(f, p)) ==>
              exists u :: WFUse(u) && forall v | 0 <= v < |run[i].all| ::
                PageView(run[i].all[v], level, p) == StateIn(u, v)
    ensures forall v, w | 0 <= v < |run[i].all| && 0 <= w < |run[i].all| && v != w ::
              !(Owns(PageView(run[i].all[v], level, p)) && Owns(PageView(run[i].all[w], level, p)))
  {
    hide PageView, Initial, BootInv, Carving, Abs, Owns, Covers;
    BootInvInitial(mem, avail, run[0].all, level, regions, own);
    if forall f | f in run[i].flights :: !Covers(f, p) { TablesAgreeOnOwnership(run, level, i, p); }
    forall v, w | 0 <= v < |run[i].all| && 0 <= w < |run[i].all| && v != w
      ensures !(Owns(PageView(run[i].all[v], level, p)) && Owns(PageView(run[i].all[w], level, p)))
    {
      TablesNeverOwnTwice(run, level, i, p, v, w);
    }
  }
}
