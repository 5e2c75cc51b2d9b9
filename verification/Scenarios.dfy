/** Two short histories of a page table, from its creation on, in which the engine does less than its
    comments promise. */
module Scenarios {
  import opened Common
  import opened Geometry
  import opened Entries
  import opened Footprint
  import opened Layout
  import opened Stores
  import opened Roots
  import opened Lifecycle
  import opened Breaks
  import opened Limits
  import T = PageTable
  import P = MPool

  const BLOCK: nat := 0x20_0000

  lemma Sizes()
    ensures Size(0) == 4096 && Size(1) == BLOCK && Size(2) == 0x4000_0000
    ensures SpaceEnd(1, 1) == 0x4000_0000 && RootLo(0, 1) == 0 && EntryLo(0, 1, Size(1)) == BLOCK
  {
    assert Size(1) == 512 * Size(0) && Size(2) == 512 * Size(1);
    assert EntryLo(0, 1, Size(2)) == EntryLo(0, 0, Size(2)) + Size(2);
    assert EntryLo(0, 1, Size(1)) == EntryLo(0, 0, Size(1)) + Size(1);
  }

  /** A one-gigabyte space whose first two megabytes are described by `e`. */
  ghost predicate StartsWith(tops: seq<Entry>, e: Entry) {
    |tops| == 1 && Tables(tops, 1) && |tops[0].kids| == PTE_PER_PAGE && tops[0].kids[0] == e
  }

  lemma FirstKid(tops: seq<Entry>)
    requires |tops| == 1 && Tables(tops, 1)
    ensures |tops[0].kids| == PTE_PER_PAGE && StartsWith(tops, tops[0].kids[0]) && WF(tops[0].kids[0], 1)
  {
  }

  /** A range inside the first two megabytes concerns the first entry only. */
  lemma NeedOfFirst(tops: seq<Entry>, op: Op)
    requires |tops| == 1 && Tables(tops, 1) && op.end <= BLOCK
    ensures |tops[0].kids| == PTE_PER_PAGE && RootNeed(tops, 1, op, 0) == Need(tops[0].kids[0], 1, 0, op)
  {
    Sizes();
    FirstKid(tops);
    var ks := tops[0].kids;
    forall k | 1 <= k < 512 ensures !Overlaps(op, EntryLo(0, k, Size(1)), 1) {
      EntryLoOrder(0, 1, k, Size(1));
    }
    OutsideNeedsNothing(ks, 1, 0, op, 1, 512);
    assert RootNeed(tops, 1, op, 1) == 0 && NeedFrom(ks, 1, 0, op, 512) == 0;
  }

  lemma PagesNeedNothing(ks: seq<Entry>, lo: nat, op: Op, i: nat)
    requires i <= |ks|
    ensures NeedFrom(ks, 0, lo, op, i) == 0
    decreases |ks| - i
  {
    if i < |ks| { PagesNeedNothing(ks, lo, op, i + 1); }
  }

  /** What an update of a range inside the first two megabytes makes of the first entry. */
  lemma FirstAfter(ok: bool, m: Mem, m': Mem, tops: seq<Entry>, mid: seq<Entry>, fin: seq<Entry>, op: Op,
                   evs1: seq<Event>, evs2: seq<Event>)
    requires Updated(ok, m, m', tops, mid, fin, 1, op, evs1, evs2) && |tops| == 1 && op.end <= BLOCK
    ensures Tables(tops, 1) && |tops[0].kids| == PTE_PER_PAGE
    ensures ok <==> Need(tops[0].kids[0], 1, 0, op) <= |m.avail|
    ensures ok ==> Tables(mid, 1) && |mid| == 1 && |mid[0].kids| == PTE_PER_PAGE
    ensures ok ==> Prepared(tops[0].kids[0], mid[0].kids[0], 1, 0, op) && Need(mid[0].kids[0], 1, 0, op) == 0
    ensures ok ==> StartsWith(fin, Commit(mid[0].kids[0], 1, 0, op))
  {
    hide RootLogged, Gap, Balanced, Commit, Need, Prepared;
    Sizes();
    FirstKid(tops);
    NeedOfFirst(tops, op);
    if ok {
      FirstKid(mid);
      NeedOfFirst(mid, op);
      FirstKid(fin);
      assert PreparedKids(tops[0], mid[0], 1, RootLo(0, 1), op);
      assert fin[0] == CommitTop(mid, 0, 1, op);
    }
  }

  /** Mapping the first page of an empty space takes one page and leaves a table there. */
  lemma PageInEmpty(e: Entry, mid: Entry, attrs: Attrs)
    requires e == Leaf(None) && Prepared(e, mid, 1, 0, Op(0, 4096, attrs, false)) &&
             Need(mid, 1, 0, Op(0, 4096, attrs, false)) == 0
    ensures Need(e, 1, 0, Op(0, 4096, attrs, false)) == 1
    ensures Commit(mid, 1, 0, Op(0, 4096, attrs, false)).Table?
  {
    var op := Op(0, 4096, attrs, false);
    Sizes();
    NeedOfEmpty(attrs);
    PreparedPartial(mid, 1, 0, op);
  }

  lemma NeedOfEmpty(attrs: Attrs)
    ensures Need(Leaf(None), 1, 0, Op(0, 4096, attrs, false)) == 1
  {
    Sizes();
    PagesNeedNothing(Kids(Leaf(None), 1), 0, Op(0, 4096, attrs, false), 0);
  }

  /** Mapping two megabytes needs no page. */
  lemma BlockNeedsNothing(e: Entry, mid: Entry, attrs: Attrs)
    requires Prepared(e, mid, 1, 0, Op(0, BLOCK, attrs, false))
    ensures Need(e, 1, 0, Op(0, BLOCK, attrs, false)) == 0 && mid == e
    ensures Commit(mid, 1, 0, Op(0, BLOCK, attrs, false)) == Leaf(Some(attrs))
  {
    Sizes();
  }

  lemma CoveredFirst(tops: seq<Entry>, attrs: Attrs, had: nat)
    requires |tops| == 1 && Tables(tops, 1) && tops[0].kids != [] && tops[0].kids[0].Table? && Valid(attrs)
    ensures WillLose(tops, 1, Op(0, BLOCK, attrs, false), had)
  {
    var op := Op(0, BLOCK, attrs, false);
    Sizes();
    NeedOfFirst(tops, op);
    assert CoversTable(tops[0].kids[0], 1, EntryLo(0, 0, Size(1)), op);
    assert AnyCovered(tops[0].kids, 1, RootLo(0, 1), op);
  }

  lemma TwoPages(x: set<nat>, y: set<nat>, page: nat)
    requires y + {page} == x && page !in y
    ensures |x| == |y| + 1
  {
    assert x - {page} == y;
  }

  lemma EmptyRoot(root: nat)
    ensures |AbsentTops(root, 1)| == 1 && AbsentTops(root, 1)[0].kids != [] &&
            AbsentTops(root, 1)[0].kids[0] == Leaf(None)
    ensures PagesOf(AbsentTops(root, 1)) == {root}
  {
    AbsentPages(root, 1);
  }

  /** A table for one gigabyte that maps nothing. */
  method Empty(pool: P.MPool) returns (t: T.PageTable?)
    requires pool.Valid()
    modifies pool.Repr
    ensures pool.Valid() && (t == null <==> old(pool.Exhausted(1, 1)))
    ensures t != null ==> fresh(t) && t.Valid() && t.Ready(pool) && t.count == 1 && t.maxLevel == 1
    ensures t != null ==> StartsWith(t.tops, Leaf(None)) && pool.avail + PagesOf(t.tops) == old(pool.avail)
    ensures t != null ==> |old(pool.avail)| == |pool.avail| + 1
  {
    hide P.MPool.Valid, P.MPool.Exhausted, RootOk, Size, SpaceEnd, PagesOf, Total, Tables, RootLo, EntryLo;
    Sizes();
    t := T.PageTable.New(1, 1, pool);
    if t != null {
      EmptyRoot(t.root);
      RootFacts(t.store, t.root, t.tops, 1);
      RootPages(t.store, t.root, t.tops, 1);
      TwoPages(old(pool.avail), pool.avail, t.root);
    }
  }

  /** A page is mapped and then the two-megabyte block around it: the page's table is lost, neither free
      nor part of the page table. */
  method BlockOverTable(pool: P.MPool, attrs: Attrs) returns (t: T.PageTable?, done: bool)
    requires pool.Valid() && Valid(attrs)
    modifies pool.Repr
    ensures done <==> !old(pool.Exhausted(1, 1)) && |old(pool.avail)| >= 2
    ensures done ==> t != null && fresh(t) && t.Valid() && t.Ready(pool)
    ensures done ==> pool.avail + PagesOf(t.tops) < old(pool.avail)
  {
    hide P.MPool.Valid, P.MPool.Exhausted, T.PageTable.Valid, Updated, PagesOf, Total, StartsWith;
    t := Empty(pool);
    done := false;
    if t == null {
      return;
    }
    var ok := MapPage(t, pool, attrs);
    if !ok {
      return;
    }
    MapBlock(t, pool, attrs);
    done := true;
  }

  method MapPage(t: T.PageTable, pool: P.MPool, attrs: Attrs) returns (ok: bool)
    requires t.Valid() && t.Ready(pool) && t.count == 1 && t.maxLevel == 1 && StartsWith(t.tops, Leaf(None)) &&
             Valid(attrs)
    modifies t`store, t`tops, pool.Repr
    ensures t.Valid() && t.Ready(pool)
    ensures ok <==> |old(pool.avail)| >= 1
    ensures ok ==> |t.tops| == 1 && Tables(t.tops, 1) && t.tops[0].kids != [] && t.tops[0].kids[0].Table?
    ensures ok ==> pool.avail + PagesOf(t.tops) <= old(pool.avail + PagesOf(t.tops))
  {
    hide P.MPool.Valid, RootOk, Updated, PagesOf, Total, Size, SpaceEnd, Commit, Need, Prepared, WF, WillLose;
    Sizes();
    ghost var op := Op(0, 4096, attrs, false);
    ghost var m, tops, mid, evs1, evs2 := t.Snap(pool), t.tops, [], [], [];
    ok, mid, evs1, evs2 := t.IdentityUpdate(0, 4096, attrs, false, pool);
    assert t.Request(0, 4096, attrs, false) == op;
    FirstAfter(ok, m, t.Snap(pool), tops, mid, t.tops, op, evs1, evs2);
    UpdateLosesIff(ok, m, t.Snap(pool), tops, mid, t.tops, 1, op, evs1, evs2);
    NeedOfEmpty(attrs);
    if ok { PageInEmpty(Leaf(None), mid[0].kids[0], attrs); }
  }

  method MapBlock(t: T.PageTable, pool: P.MPool, attrs: Attrs)
    requires t.Valid() && t.Ready(pool) && t.count == 1 && t.maxLevel == 1 && Valid(attrs)
    requires |t.tops| == 1 && Tables(t.tops, 1) && t.tops[0].kids != [] && t.tops[0].kids[0].Table?
    modifies t`store, t`tops, pool.Repr
    ensures t.Valid() && t.Ready(pool)
    ensures pool.avail + PagesOf(t.tops) < old(pool.avail + PagesOf(t.tops))
  {
    hide P.MPool.Valid, RootOk, Updated, PagesOf, Total, Size, SpaceEnd, Tables, WillLose;
    Sizes();
    ghost var op := Op(0, BLOCK, attrs, false);
    ghost var m, tops := t.Snap(pool), t.tops;
    CoveredFirst(tops, attrs, |pool.avail|);
    ghost var ok, mid, evs1, evs2 := t.IdentityUpdate(0, BLOCK, attrs, false, pool);
    assert t.Request(0, BLOCK, attrs, false) == op;
    UpdateLosesIff(ok, m, t.Snap(pool), tops, mid, t.tops, 1, op, evs1, evs2);
  }

  /** A range that begins at the second page of a valid two-megabyte block cuts it. */
  lemma SecondPageCuts(tops: seq<Entry>, was: Attrs, attrs: Attrs)
    requires StartsWith(tops, Leaf(Some(was))) && Valid(was) && attrs != was
    ensures CutsUpTo(tops, 2, 0, Op(4096, 8192, attrs, false), 1)
  {
    var op := Op(4096, 8192, attrs, false);
    Sizes();
    FirstKid(tops);
    assert EntryLo(0, 0, Size(1)) == 0 && EntryLo(0, 0, Size(2)) == 0;
    assert Cuts(tops[0].kids[0], 1, EntryLo(0, 0, Size(1)), op);
    assert CutsUpTo(tops[0].kids, 1, 0, op, |tops[0].kids|);
    assert Cuts(tops[0], 2, EntryLo(0, 0, Size(2)), op);
  }

  /** Two megabytes are mapped as a block and then its second page differently: the block's descriptor is
      broken and remade without invalidating the block's first page. */
  method SecondPageOfBlock(pool: P.MPool, was: Attrs, attrs: Attrs)
    returns (t: T.PageTable?, done: bool, ghost tops: seq<Entry>, ghost evs: seq<Event>)
    requires pool.Valid() && Valid(was) && attrs != was
    modifies pool.Repr
    ensures done <==> !old(pool.Exhausted(1, 1)) && |old(pool.avail)| >= 2
    ensures done ==> t != null && fresh(t) && t.Valid() && t.Ready(pool)
    ensures done ==> Play(Root(tops), evs, 3, 0) == Root(t.tops) && !SpansInvalidated(tops, 1, evs)
  {
    hide P.MPool.Valid, P.MPool.Exhausted, T.PageTable.Valid, Updated, PagesOf, Total, StartsWith, SpansInvalidated,
      Play;
    t := Empty(pool);
    done, tops, evs := false, [], [];
    if t == null {
      return;
    }
    BlockInEmpty(t, pool, was);
    tops := t.tops;
    done, evs := MapSecond(t, pool, was, attrs);
  }

  lemma OthersKept(m: Mem, m': Mem, tops: seq<Entry>, mid: seq<Entry>, fin: seq<Entry>, op: Op, evs1: seq<Event>,
                   evs2: seq<Event>, j: nat)
    requires Updated(true, m, m', tops, mid, fin, 1, op, evs1, evs2) && |tops| == 1 && op.end <= BLOCK &&
             1 <= j < PTE_PER_PAGE
    ensures Tables(tops, 1) && Tables(fin, 1) && |fin| == 1 && fin[0].page == tops[0].page
    ensures |tops[0].kids| == |fin[0].kids| == PTE_PER_PAGE && fin[0].kids[j] == tops[0].kids[j]
  {
    hide RootLogged, Gap, Balanced, Need;
    Sizes();
    FirstKid(tops);
    FirstKid(mid);
    EntryLoOrder(0, 1, j, Size(1));
    assert !Overlaps(op, EntryLo(0, j, Size(1)), 1);
    assert PreparedKids(tops[0], mid[0], 1, RootLo(0, 1), op);
    assert fin[0] == CommitTop(mid, 0, 1, op);
  }

  lemma LeafRow(tops: seq<Entry>, fin: seq<Entry>)
    requires |tops| == |fin| == 1 && tops[0].Table? && fin[0].Table? && fin[0].page == tops[0].page
    requires |tops[0].kids| == |fin[0].kids| == PTE_PER_PAGE && tops[0].kids[0].Leaf? && fin[0].kids[0].Leaf?
    requires forall j | 1 <= j < PTE_PER_PAGE :: fin[0].kids[j] == tops[0].kids[j]
    ensures PagesOf(fin) == PagesOf(tops)
  {
    var xs, ys := tops[0].kids, fin[0].kids;
    assert forall j | 0 <= j < PTE_PER_PAGE :: Pages(ys[j]) == Pages(xs[j]);
    assert PagesOf(ys) == PagesOf(xs);
    assert Pages(fin[0]) == Pages(tops[0]);
  }

  /** Writing one block over another moves no page. */
  lemma SamePages(m: Mem, m': Mem, tops: seq<Entry>, mid: seq<Entry>, fin: seq<Entry>, op: Op, evs1: seq<Event>,
                  evs2: seq<Event>)
    requires Updated(true, m, m', tops, mid, fin, 1, op, evs1, evs2) && |tops| == 1 && op.end <= BLOCK &&
             m.avail !! PagesOf(tops)
    requires Tables(tops, 1) && tops[0].kids != [] && tops[0].kids[0].Leaf?
    requires |fin| == 1 && Tables(fin, 1) && fin[0].kids != [] && fin[0].kids[0].Leaf?
    ensures m'.avail == m.avail
  {
    hide RootLogged, Gap, Outcome, RootLost, PagesOf, WF;
    forall j | 1 <= j < PTE_PER_PAGE
      ensures |tops[0].kids| == |fin[0].kids| == PTE_PER_PAGE && fin[0].kids[j] == tops[0].kids[j]
    {
      OthersKept(m, m', tops, mid, fin, op, evs1, evs2, j);
    }
    OthersKept(m, m', tops, mid, fin, op, evs1, evs2, 1);
    LeafRow(tops, fin);
    NothingToLose(tops, op);
    assert m'.avail + PagesOf(tops) == m.avail + PagesOf(tops) && m'.avail !! PagesOf(tops);
  }

  lemma NothingToLose(tops: seq<Entry>, op: Op)
    requires |tops| == 1 && Tables(tops, 1) && op.end <= BLOCK && tops[0].kids != [] && tops[0].kids[0].Leaf?
    ensures RootLost(tops, 1, op, 1) == {}
  {
    Sizes();
    FirstKid(tops);
    var ks := tops[0].kids;
    forall k | 1 <= k < 512 ensures !Overlaps(op, EntryLo(0, k, Size(1)), 1) {
      EntryLoOrder(0, 1, k, Size(1));
    }
    OutsideNeedsNothing(ks, 1, 0, op, 1, 512);
    assert LostTo(ks, 1, 0, op, 0) == {} && LostTo(ks, 1, 0, op, 1) == {};
    assert RootLost(tops, 1, op, 0) == {};
  }

  method BlockInEmpty(t: T.PageTable, pool: P.MPool, attrs: Attrs)
    requires t.Valid() && t.Ready(pool) && t.count == 1 && t.maxLevel == 1 && StartsWith(t.tops, Leaf(None))
    modifies t`store, t`tops, pool.Repr
    ensures t.Valid() && t.Ready(pool) && StartsWith(t.tops, Leaf(Some(attrs))) && pool.avail == old(pool.avail)
  {
    hide P.MPool.Valid, RootOk, Updated, PagesOf, Total, Size, SpaceEnd, Commit, Need, Prepared, WF;
    Sizes();
    ghost var op := Op(0, BLOCK, attrs, false);
    ghost var m, tops := t.Snap(pool), t.tops;
    RootPages(t.store, t.root, t.tops, 1);
    ghost var ok, mid, evs1, evs2 := t.IdentityUpdate(0, BLOCK, attrs, false, pool);
    assert t.Request(0, BLOCK, attrs, false) == op;
    FirstAfter(ok, m, t.Snap(pool), tops, mid, t.tops, op, evs1, evs2);
    BlockNeedsNothing(Leaf(None), Leaf(None), attrs);
    BlockNeedsNothing(Leaf(None), mid[0].kids[0], attrs);
    SamePages(m, t.Snap(pool), tops, mid, t.tops, op, evs1, evs2);
  }

  method MapSecond(t: T.PageTable, pool: P.MPool, ghost was: Attrs, attrs: Attrs)
    returns (ok: bool, ghost evs: seq<Event>)
    requires t.Valid() && t.Ready(pool) && t.count == 1 && t.maxLevel == 1 && StartsWith(t.tops, Leaf(Some(was)))
    requires Valid(was) && attrs != was
    modifies t`store, t`tops, pool.Repr
    ensures t.Valid() && t.Ready(pool)
    ensures ok <==> |old(pool.avail)| >= 1
    ensures ok ==> Play(Root(old(t.tops)), evs, 3, 0) == Root(t.tops) && !SpansInvalidated(old(t.tops), 1, evs)
  {
    hide P.MPool.Valid, RootOk, Updated, PagesOf, Total, Size, SpaceEnd, Need, Prepared, WF, SpansInvalidated, Play,
      CutsUpTo;
    Sizes();
    ghost var op := Op(4096, 8192, attrs, false);
    ghost var m, tops, mid, evs1, evs2 := t.Snap(pool), t.tops, [], [], [];
    SecondPageCuts(tops, was, attrs);
    ok, mid, evs1, evs2 := t.IdentityUpdate(4096, 8192, attrs, false, pool);
    evs := evs1 + evs2;
    assert t.Request(4096, 8192, attrs, false) == op;
    FirstAfter(ok, m, t.Snap(pool), tops, mid, t.tops, op, evs1, evs2);
    NeedOfBlock(was, attrs);
    SpansInvalidatedIff(ok, m, t.Snap(pool), tops, mid, t.tops, 1, op, evs1, evs2);
    LogReplays(ok, m, t.Snap(pool), tops, mid, t.tops, 1, op, evs1, evs2);
  }

  lemma NeedOfBlock(was: Attrs, attrs: Attrs)
    requires Valid(was) && attrs != was
    ensures Need(Leaf(Some(was)), 1, 0, Op(4096, 8192, attrs, false)) == 1
  {
    Sizes();
    PagesNeedNothing(Kids(Leaf(Some(was)), 1), 0, Op(4096, 8192, attrs, false), 0);
  }
}
