/** The physical pages a tree of tables occupies, how a tree is laid out in memory, and which pages
    an update returns, keeps or loses. */
module Footprint {
  import opened Geometry
  import opened Entries

  // ---- Pages ---------------------------------------------------------------------------------

  ghost function Pages(e: Entry): set<nat>
    decreases e, 0
  {
    if e.Leaf? then {} else {e.page} + PagesOf(e.kids)
  }

  ghost function PagesOf(ks: seq<Entry>): set<nat>
    decreases ks, 1
  {
    set i, q | 0 <= i < |ks| && q in Pages(ks[i]) :: q
  }

  /** No page is used by two tables. */
  ghost predicate Unshared(e: Entry)
    decreases e, 0
  {
    e.Table? ==> e.page !in PagesOf(e.kids) && UnsharedAll(e.kids)
  }

  ghost predicate UnsharedAll(ks: seq<Entry>)
    decreases ks, 1
  {
    && (forall i | 0 <= i < |ks| :: Unshared(ks[i]))
    && (forall i, j | 0 <= i < j < |ks| :: Pages(ks[i]) !! Pages(ks[j]))
  }

  lemma PagesReplace(ks: seq<Entry>, i: nat, k: Entry)
    requires UnsharedAll(ks) && i < |ks| && Unshared(k)
    requires Pages(k) !! (PagesOf(ks) - Pages(ks[i]))
    ensures UnsharedAll(ks[i := k])
    ensures PagesOf(ks[i := k]) == PagesOf(ks) - Pages(ks[i]) + Pages(k)
  {
    var ks' := ks[i := k];
    forall j | 0 <= j < |ks| && j != i ensures Pages(ks[j]) !! Pages(ks[i]) && Pages(ks[j]) !! Pages(k) {
      assert ks'[j] == ks[j];
      forall q | q in Pages(ks[j]) ensures q in PagesOf(ks) {
      }
    }
    forall q ensures q in PagesOf(ks') <==> q in PagesOf(ks) - Pages(ks[i]) + Pages(k) {
      if q in PagesOf(ks') {
        var j :| 0 <= j < |ks'| && q in Pages(ks'[j]);
        if j != i { assert q in Pages(ks[j]); }
      }
      if q in PagesOf(ks) - Pages(ks[i]) {
        var j :| 0 <= j < |ks| && q in Pages(ks[j]);
        assert q in Pages(ks'[j]);
      }
      if q in Pages(k) { assert ks'[i] == k; }
    }
  }

  // ---- Layout in memory ----------------------------------------------------------------------

  /** A descriptor as the hardware reads it; `pa` is a byte address, `page` a frame number. */
  datatype Pte = Absent | Block(pa: nat, attrs: Attrs) | Subtable(page: nat)

  type Store = map<nat, seq<Pte>>

  /** Descriptor `pte` and the tables below it spell out `e`; blocks map addresses to themselves. */
  ghost predicate Rep(store: Store, pte: Pte, e: Entry, level: nat, lo: nat)
    decreases level, 0
  {
    match e
    case Leaf(None) => pte == Absent
    case Leaf(Some(a)) => pte == Block(lo, a)
    case Table(p, ks) => level > 0 && pte == Subtable(p) && RepTable(store, p, ks, level - 1, lo)
  }

  ghost predicate RepTable(store: Store, p: nat, ks: seq<Entry>, level: nat, lo: nat)
    decreases level, 1
  {
    && p in store && |store[p]| == |ks|
    && forall i | 0 <= i < |ks| :: Rep(store, store[p][i], ks[i], level, EntryLo(lo, i, Size(level)))
  }

  lemma {:induction false} RepPages(store: Store, pte: Pte, e: Entry, level: nat, lo: nat)
    requires Rep(store, pte, e, level, lo)
    ensures Pages(e) <= store.Keys
    decreases level, 0
  {
    if e.Table? {
      RepTablePages(store, e.page, e.kids, level - 1, lo);
    }
  }

  lemma {:induction false} RepTablePages(store: Store, p: nat, ks: seq<Entry>, level: nat, lo: nat)
    requires RepTable(store, p, ks, level, lo)
    ensures {p} + PagesOf(ks) <= store.Keys
    decreases level, 1
  {
    forall i | 0 <= i < |ks| ensures Pages(ks[i]) <= store.Keys {
      RepPages(store, store[p][i], ks[i], level, EntryLo(lo, i, Size(level)));
    }
  }

  lemma TablePages(store: Store, t: nat, ks: seq<Entry>, level: nat, lo: nat)
    requires TableOk(store, t, ks, level, lo)
    ensures {t} + PagesOf(ks) <= store.Keys
  {
    RepTablePages(store, t, ks, level, lo);
  }

  /** What a tree means depends only on its own pages. */
  lemma {:induction false} RepFrame(store: Store, store': Store, pte: Pte, e: Entry, level: nat, lo: nat)
    requires Rep(store, pte, e, level, lo)
    requires forall q | q in Pages(e) && q in store :: q in store' && store'[q] == store[q]
    ensures Rep(store', pte, e, level, lo)
    decreases level
  {
    if e.Table? {
      assert e.page in Pages(e);
      forall i | 0 <= i < |e.kids|
        ensures Rep(store', store'[e.page][i], e.kids[i], level - 1, EntryLo(lo, i, Size(level - 1)))
      {
        forall q | q in Pages(e.kids[i]) ensures q in Pages(e) {
        }
        RepFrame(store, store', store[e.page][i], e.kids[i], level - 1, EntryLo(lo, i, Size(level - 1)));
      }
    }
  }

  /** Only entry `i` of table `p` and the tables below it changed, from `e` to `e'`. */
  ghost predicate Changed(store: Store, store': Store, p: nat, i: nat, e: Entry, e': Entry) {
    && p in store && p in store' && |store'[p]| == |store[p]|
    && (forall j | 0 <= j < |store[p]| && j != i :: store'[p][j] == store[p][j])
    && ChangedBelow(store, store', p, Pages(e), Pages(e'))
  }

  /** Apart from table `p`, exactly the pages in `was` were replaced by those in `now`. */
  ghost predicate ChangedBelow(store: Store, store': Store, p: nat, was: set<nat>, now: set<nat>) {
    && p in store && p in store' && now <= store'.Keys
    && forall q | q in store && q !in was && q != p :: q in store' && store'[q] == store[q]
  }

  /** Pages move between the pool and the tables; `lost` ones reach neither. */
  ghost predicate Balanced(avail: set<nat>, was: set<nat>, avail': set<nat>, now: set<nat>, lost: set<nat>) {
    && avail' !! now && lost !! (avail' + now)
    && avail' + now + lost == avail + was
  }

  ghost predicate TableOk(store: Store, t: nat, ks: seq<Entry>, level: nat, lo: nat) {
    && RepTable(store, t, ks, level, lo) && WFs(ks, level) && |ks| == PTE_PER_PAGE
    && t != 0 && t !in PagesOf(ks) && 0 !in PagesOf(ks) && UnsharedAll(ks)
  }

  ghost predicate SlotOk(store: Store, p: nat, i: nat, e: Entry, level: nat, lo: nat) {
    && p in store && i < |store[p]| && p !in Pages(e) && 0 !in Pages(e)
    && Rep(store, store[p][i], e, level, lo) && WF(e, level) && Unshared(e)
  }

  /** Updating one entry of a table re-establishes the layout of the whole table. */
  lemma TableStep(store: Store, store': Store, t: nat, ks: seq<Entry>, i: nat, e: Entry, level: nat, lo: nat,
                  avail: set<nat>)
    requires TableOk(store, t, ks, level, lo) && i < |ks|
    requires Changed(store, store', t, i, ks[i], e)
    requires SlotOk(store', t, i, e, level, EntryLo(lo, i, Size(level)))
    requires avail !! store.Keys && Pages(e) <= Pages(ks[i]) + avail
    ensures TableOk(store', t, ks[i := e], level, lo)
    ensures PagesOf(ks[i := e]) <= store'.Keys
    ensures PagesOf(ks[i := e]) == PagesOf(ks) - Pages(ks[i]) + Pages(e)
  {
    RepTablePages(store, t, ks, level, lo);
    PagesReplace(ks, i, e);
    var ks' := ks[i := e];
    forall j | 0 <= j < |ks'|
      ensures Rep(store', store'[t][j], ks'[j], level, EntryLo(lo, j, Size(level)))
    {
      if j != i { OtherEntry(store, store', t, ks, i, e, j, level, lo); }
    }
    RepTablePages(store', t, ks', level, lo);
  }

  lemma OtherEntry(store: Store, store': Store, t: nat, ks: seq<Entry>, i: nat, e: Entry, j: nat, level: nat, lo: nat)
    requires TableOk(store, t, ks, level, lo) && i < |ks| && j < |ks| && i != j
    requires Changed(store, store', t, i, ks[i], e)
    ensures Rep(store', store'[t][j], ks[j], level, EntryLo(lo, j, Size(level)))
  {
    forall q | q in Pages(ks[j]) ensures q in PagesOf(ks) && q !in Pages(ks[i]) && q != t {
    }
    RepFrame(store, store', store[t][j], ks[j], level, EntryLo(lo, j, Size(level)));
  }

  // ---- Memory and pool together --------------------------------------------------------------

  /** Table memory and the pages of a pool at one moment. */
  datatype Mem = Mem(store: Store, own: set<nat>, avail: set<nat>)

  /** The pages in `x` left the table memory and joined the pool's own pages. */
  ghost predicate Freed(m: Mem, m': Mem, x: set<nat>) {
    m'.store == m.store - x && m'.own == m.own + x && m'.avail == m.avail + x
  }

  lemma FreedIntro(m: Mem, m': Mem, x: set<nat>)
    requires m'.store.Keys == m.store.Keys - x && forall q | q in m'.store :: m'.store[q] == m.store[q]
    requires m'.own == m.own + x && m'.avail == m.avail + x
    ensures Freed(m, m', x)
  {
  }

  /** Every page that the tables or the pool hold. */
  ghost function Total(m: Mem): set<nat> {
    m.store.Keys + m.avail
  }

  lemma FreedTotal(m: Mem, m': Mem, x: set<nat>)
    requires Freed(m, m', x) && x <= m.store.Keys
    ensures Total(m') == Total(m)
  {
  }

  lemma AllocTotal(m: Mem, m': Mem, page: nat)
    requires page in m.avail && page in m'.store && m'.store == m.store[page := m'.store[page]] &&
             m'.avail == m.avail - {page}
    ensures Total(m') == Total(m)
  {
  }

  lemma FreedTwice(m: Mem, m1: Mem, m2: Mem, x: set<nat>, y: set<nat>)
    requires Freed(m, m1, x) && Freed(m1, m2, y)
    ensures Freed(m, m2, x + y)
  {
  }

  lemma PagesPrefix(ks: seq<Entry>, i: nat)
    requires UnsharedAll(ks) && i < |ks|
    ensures PagesOf(ks[..i + 1]) == PagesOf(ks[..i]) + Pages(ks[i])
    ensures Pages(ks[i]) !! PagesOf(ks[..i])
    ensures Pages(ks[i]) <= PagesOf(ks) && PagesOf(ks[..i]) <= PagesOf(ks)
  {
    var a, b := ks[..i], ks[..i + 1];
    forall q | q in PagesOf(b) ensures q in PagesOf(a) + Pages(ks[i]) {
      var j :| 0 <= j < |b| && q in Pages(b[j]);
      if j < i { assert q in Pages(a[j]); }
    }
    forall q | q in PagesOf(a) ensures q in PagesOf(b) && q in PagesOf(ks) && q !in Pages(ks[i]) {
      var j :| 0 <= j < |a| && q in Pages(a[j]);
      assert q in Pages(b[j]) && q in Pages(ks[j]);
    }
    forall q | q in Pages(ks[i]) ensures q in PagesOf(b) {
      assert q in Pages(b[i]);
    }
  }

  /** Dropping the entries of a table one by one. */
  lemma DropStep(m: Mem, m1: Mem, m2: Mem, page: nat, ks: seq<Entry>, i: nat, level: nat, lo: nat)
    requires RepTable(m.store, page, ks, level, lo) && UnsharedAll(ks) && i < |ks| && page !in PagesOf(ks)
    requires Freed(m, m1, PagesOf(ks[..i])) && Freed(m1, m2, Pages(ks[i]))
    ensures Freed(m, m2, PagesOf(ks[..i + 1]))
    ensures page in m2.store && m2.store[page] == m.store[page]
  {
    PagesPrefix(ks, i);
    FreedTwice(m, m1, m2, PagesOf(ks[..i]), Pages(ks[i]));
  }

  lemma DropNext(m: Mem, m1: Mem, page: nat, ks: seq<Entry>, i: nat, level: nat, lo: nat)
    requires RepTable(m.store, page, ks, level, lo) && UnsharedAll(ks) && i < |ks| && page !in PagesOf(ks)
    requires Freed(m, m1, PagesOf(ks[..i]))
    ensures Rep(m1.store, m.store[page][i], ks[i], level, EntryLo(lo, i, Size(level)))
    ensures Unshared(ks[i]) && (0 !in PagesOf(ks) ==> 0 !in Pages(ks[i]))
  {
    PagesPrefix(ks, i);
    RepFrame(m.store, m1.store, m.store[page][i], ks[i], level, EntryLo(lo, i, Size(level)));
  }
}
