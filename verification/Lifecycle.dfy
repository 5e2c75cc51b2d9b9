/** The life of a page table: what a fresh one means, and which pages dropping one returns. */
module Lifecycle {
  import opened Common
  import opened Geometry
  import opened Entries
  import opened Footprint
  import opened Roots

  function AbsentKids(): (ks: seq<Entry>)
    ensures |ks| == PTE_PER_PAGE && forall i | 0 <= i < |ks| :: ks[i] == Leaf(None)
  {
    seq(PTE_PER_PAGE, _ => Leaf(None))
  }

  function AbsentTable(): (ptes: seq<Pte>)
    ensures |ptes| == PTE_PER_PAGE && forall i | 0 <= i < |ptes| :: ptes[i] == Absent
  {
    seq(PTE_PER_PAGE, _ => Absent)
  }

  /** Root tables that map nothing. */
  function AbsentTops(root: nat, count: nat): (tops: seq<Entry>)
    ensures |tops| == count && forall k | 0 <= k < count :: tops[k] == Table(root + k, AbsentKids())
  {
    seq(count, k requires 0 <= k => Table(root + k, AbsentKids()))
  }

  lemma AbsentPages(root: nat, count: nat)
    ensures forall q :: q in PagesOf(AbsentTops(root, count)) <==> root <= q < root + count
    ensures UnsharedAll(AbsentTops(root, count))
  {
    var tops := AbsentTops(root, count);
    forall k | 0 <= k < count ensures Pages(tops[k]) == {root + k} && Unshared(tops[k]) {
      assert tops[k] == Table(root + k, AbsentKids());
      assert PagesOf(AbsentKids()) == {};
    }
    forall q | root <= q < root + count ensures q in PagesOf(tops) {
      assert q in Pages(tops[q - root]);
    }
  }

  lemma AbsentOk(store: Store, root: nat, count: nat, level: nat)
    requires root > 0 && forall q | root <= q < root + count :: q in store && store[q] == AbsentTable()
    ensures RootOk(store, root, AbsentTops(root, count), level)
  {
    AbsentPages(root, count);
    var tops := AbsentTops(root, count);
    forall k | 0 <= k < count ensures TopRep(store, tops[k], level, RootLo(k, level)) && WF(tops[k], level + 1) {
      var page := root + k;
      assert tops[k] == Table(page, AbsentKids()) && store[page] == AbsentTable();
      assert RepTable(store, page, AbsentKids(), level, RootLo(k, level));
    }
  }

  /** A fresh page table relates no address to the VM. */
  lemma AbsentView(root: nat, count: nat, level: nat, a: nat)
    requires Tables(AbsentTops(root, count), level) && a < SpaceEnd(count, level)
    ensures RawAt(AbsentTops(root, count), level, a) == None
  {
    var k, i := Locate(AbsentTops(root, count), level, a);
  }

  // ---- Dropping ------------------------------------------------------------------------------

  /** The pages below the first `k` root tables. */
  ghost function Below(tops: seq<Entry>, k: nat): set<nat>
    requires k <= |tops| && forall i | 0 <= i < |tops| :: tops[i].Table?
  {
    set i, q | 0 <= i < k && q in PagesOf(tops[i].kids) :: q
  }

  lemma DropRootStart(m: Mem, root: nat, tops: seq<Entry>, level: nat)
    requires RootOk(m.store, root, tops, level)
    ensures Tables(tops, level) && Freed(m, m, Below(tops, 0))
  {
    assert Below(tops, 0) == {};
  }

  lemma DropRootNext(m: Mem, m1: Mem, root: nat, tops: seq<Entry>, k: nat, level: nat)
    requires RootOk(m.store, root, tops, level) && k < |tops| && Freed(m, m1, Below(tops, k))
    ensures var ks := tops[k].kids;
            && RepTable(m1.store, root + k, ks, level, RootLo(k, level)) && UnsharedAll(ks)
            && root + k !in PagesOf(ks) && 0 !in PagesOf(ks)
  {
    var e := tops[k];
    assert TopRep(m.store, e, level, RootLo(k, level)) && Unshared(e);
    forall q | q in Pages(e) ensures q !in Below(tops, k) && q in PagesOf(tops) {
      forall i | 0 <= i < k ensures q !in PagesOf(tops[i].kids) { assert Pages(tops[i]) !! Pages(tops[k]); }
    }
    RepFrame(m.store, m1.store, Subtable(e.page), e, level + 1, RootLo(k, level));
  }

  lemma DropRootStep(m: Mem, m1: Mem, m2: Mem, tops: seq<Entry>, k: nat, level: nat)
    requires Tables(tops, level) && k < |tops|
    requires Freed(m, m1, Below(tops, k)) && Freed(m1, m2, PagesOf(tops[k].kids))
    ensures Freed(m, m2, Below(tops, k + 1))
  {
    FreedTwice(m, m1, m2, Below(tops, k), PagesOf(tops[k].kids));
    assert Below(tops, k + 1) == Below(tops, k) + PagesOf(tops[k].kids);
  }

  lemma RootNotBelow(root: nat, tops: seq<Entry>, k: nat)
    requires (forall i | 0 <= i < |tops| :: tops[i].Table? && tops[i].page == root + i) && UnsharedAll(tops) &&
             k < |tops|
    ensures root + k !in Below(tops, |tops|) && root + k in PagesOf(tops)
  {
    assert tops[k].page == root + k && root + k in Pages(tops[k]) && Unshared(tops[k]);
    forall i | 0 <= i < |tops| && i != k ensures root + k !in PagesOf(tops[i].kids) {
      assert Pages(tops[i]) !! Pages(tops[k]);
    }
  }

  lemma BelowOrRoot(root: nat, tops: seq<Entry>, q: nat)
    requires forall i | 0 <= i < |tops| :: tops[i].Table? && tops[i].page == root + i
    ensures q in Below(tops, |tops|) ==> q in PagesOf(tops)
    ensures q in PagesOf(tops) ==> q in Below(tops, |tops|) || root <= q < root + |tops|
  {
    if q in Below(tops, |tops|) {
      var i :| 0 <= i < |tops| && q in PagesOf(tops[i].kids);
      assert q in Pages(tops[i]);
    }
    if q in PagesOf(tops) {
      var i :| 0 <= i < |tops| && q in Pages(tops[i]);
      assert tops[i].page == root + i && tops[i].Table?;
      if q != root + i { assert q in PagesOf(tops[i].kids); }
    }
  }

  /** All that is left to free are the root tables themselves. */
  lemma DropRootEnd(m: Mem, m1: Mem, root: nat, tops: seq<Entry>, level: nat, roots: set<nat>)
    requires RootOk(m.store, root, tops, level) && m.avail !! m.store.Keys
    requires Freed(m, m1, Below(tops, |tops|))
    requires forall q :: q in roots <==> root <= q < root + |tops|
    ensures roots !! m1.avail && Below(tops, |tops|) + roots == PagesOf(tops)
  {
    hide Below, PagesOf, Pages, UnsharedAll, Tables;
    RootPages(m.store, root, tops, level);
    forall q | q in roots ensures q in PagesOf(tops) && q !in Below(tops, |tops|) {
      TablesAreTables(tops, level);
      RootNotBelow(root, tops, q - root);
    }
    forall q ensures q in Below(tops, |tops|) + roots <==> q in PagesOf(tops) {
      TablesAreTables(tops, level);
      BelowOrRoot(root, tops, q);
    }
  }

  lemma TablesAreTables(tops: seq<Entry>, level: nat)
    requires Tables(tops, level)
    ensures forall i | 0 <= i < |tops| :: tops[i].Table?
  {
  }
}
