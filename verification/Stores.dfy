/** The stores of an update, in order, replayed on the tree of descriptors: what stood in a slot when it was
    overwritten, and what happens between breaking a valid descriptor and making a new one. */
module Stores {
  import opened Common
  import opened Geometry
  import opened Entries

  /** A store of one descriptor, together with all that it links in, or an invalidation. */
  datatype Event =
    | Write(lo: nat, level: nat, after: Entry)
    | Invalidate(begin: nat, end: nat)

  // ---- Slots of a tree -----------------------------------------------------------------------

  /** The entry that the stored descriptor overwrites. */
  ghost function SlotAt(e: Entry, level: nat, lo: nat, ev: Event): Option<Entry>
    requires ev.Write?
    decreases level
  {
    if ev.level == level then (if ev.lo == lo then Some(e) else None)
    else if ev.level > level || e.Leaf? || ev.lo < lo then None
    else
      var i := Which(lo, Size(level - 1), ev.lo);
      if i < |e.kids| then SlotAt(e.kids[i], level - 1, EntryLo(lo, i, Size(level - 1)), ev) else None
  }

  /** The tree after the store. */
  ghost function Put(e: Entry, level: nat, lo: nat, ev: Event): Entry
    requires ev.Write?
    decreases level
  {
    if ev.level == level then (if ev.lo == lo then ev.after else e)
    else if ev.level > level || e.Leaf? || ev.lo < lo then e
    else
      var i := Which(lo, Size(level - 1), ev.lo);
      if i < |e.kids| then Table(e.page, e.kids[i := Put(e.kids[i], level - 1, EntryLo(lo, i, Size(level - 1)), ev)])
        else e
  }

  /** The tree after all events. */
  ghost function Play(e: Entry, evs: seq<Event>, level: nat, lo: nat): Entry {
    if evs == [] then e
    else
      var e1, ev := Play(e, evs[..|evs| - 1], level, lo), evs[|evs| - 1];
      if ev.Write? then Put(e1, level, lo, ev) else e1
  }

  lemma {:induction false} PlayConcat(e: Entry, xs: seq<Event>, ys: seq<Event>, level: nat, lo: nat)
    ensures Play(e, xs + ys, level, lo) == Play(Play(e, xs, level, lo), ys, level, lo)
  {
    if ys == [] {
      assert xs + ys == xs;
    } else {
      var n := |ys| - 1;
      PlayConcat(e, xs, ys[..n], level, lo);
      assert (xs + ys)[..|xs + ys| - 1] == xs + ys[..n];
    }
  }

  ghost predicate InSpan(ev: Event, level: nat, lo: nat) {
    ev.Write? ==> ev.level <= level && lo <= ev.lo && ev.lo + Size(ev.level) <= lo + Size(level)
  }

  ghost predicate Inside(evs: seq<Event>, level: nat, lo: nat) {
    forall k | 0 <= k < |evs| :: InSpan(evs[k], level, lo)
  }

  /** A store below entry `i` of a table is a store in the table. */
  lemma PutBelow(ev: Event, t: nat, ks: seq<Entry>, i: nat, level: nat, lo: nat)
    requires i < |ks| && ev.Write? && InSpan(ev, level, EntryLo(lo, i, Size(level)))
    ensures SlotAt(Table(t, ks), level + 1, lo, ev) == SlotAt(ks[i], level, EntryLo(lo, i, Size(level)), ev)
    ensures Put(Table(t, ks), level + 1, lo, ev) ==
            Table(t, ks[i := Put(ks[i], level, EntryLo(lo, i, Size(level)), ev)])
  {
    EntryUnique(lo, i, Size(level), ev.lo);
  }

  lemma {:induction false} PlayBelow(evs: seq<Event>, t: nat, ks: seq<Entry>, i: nat, level: nat, lo: nat)
    requires i < |ks| && Inside(evs, level, EntryLo(lo, i, Size(level)))
    ensures Play(Table(t, ks), evs, level + 1, lo) ==
            Table(t, ks[i := Play(ks[i], evs, level, EntryLo(lo, i, Size(level)))])
  {
    hide Put, SlotAt, Which;
    if evs == [] {
      assert ks[i := ks[i]] == ks;
    } else {
      var n, from := |evs| - 1, EntryLo(lo, i, Size(level));
      assert forall k | 0 <= k < n :: evs[..n][k] == evs[k];
      PlayBelow(evs[..n], t, ks, i, level, lo);
      var e := Play(ks[i], evs[..n], level, from);
      if evs[n].Write? {
        assert InSpan(evs[n], level, from);
        PutBelow(evs[n], t, ks[i := e], i, level, lo);
        assert ks[i := e][i := Put(e, level, from, evs[n])] == ks[i := Put(e, level, from, evs[n])];
      }
    }
  }

  // ---- Breaking and making -------------------------------------------------------------------

  predicate SameSlot(x: Event, y: Event) {
    x.Write? && y.Write? && x.lo == y.lo && x.level == y.level
  }

  /** The slot's next event is an invalidation from where the update enters the slot, and then it becomes
      valid again. A commit pass enters every such slot at its start. */
  ghost predicate Bracket(evs: seq<Event>, k: nat, op: Op, commit: bool)
    requires k < |evs| && evs[k].Write?
  {
    var b := Max(op.begin, evs[k].lo);
    && k + 2 < |evs| && evs[k + 1] == Invalidate(b, b + Size(evs[k].level))
    && SameSlot(evs[k], evs[k + 2]) && IsValid(evs[k + 2].after)
    && (commit ==> op.begin <= evs[k].lo)
  }

  /** No later store makes the slot valid. */
  ghost predicate Final(evs: seq<Event>, k: nat)
    requires k < |evs|
  {
    forall n | k < n < |evs| && SameSlot(evs[k], evs[n]) :: !IsValid(evs[n].after)
  }

  /** Event `k` never overwrites a valid descriptor by a valid one, and a valid descriptor that it makes
      invalid stays so or is remade only after an invalidation. */
  ghost predicate Sound(evs: seq<Event>, k: nat, e: Entry, level: nat, lo: nat, op: Op, commit: bool)
    requires k < |evs|
  {
    evs[k].Write? ==>
      var cur := SlotAt(Play(e, evs[..k], level, lo), level, lo, evs[k]);
      && cur.Some? && !(IsValid(cur.value) && IsValid(evs[k].after))
      && (IsValid(cur.value) ==> Bracket(evs, k, op, commit) || (commit && Final(evs, k)))
      && (commit || IsValid(cur.value) || IsValid(evs[k].after))
  }

  /** The events are exactly the stores that turned `e` into `e'`. */
  ghost predicate Faithful(evs: seq<Event>, e: Entry, e': Entry, level: nat, lo: nat, op: Op, commit: bool) {
    && Play(e, evs, level, lo) == e'
    && forall k | 0 <= k < |evs| :: Sound(evs, k, e, level, lo, op, commit)
  }

  /** The second log makes nothing valid in a slot that the first one stores to. */
  ghost predicate Apart(xs: seq<Event>, ys: seq<Event>) {
    forall j, n | 0 <= j < |xs| && 0 <= n < |ys| && SameSlot(xs[j], ys[n]) :: !IsValid(ys[n].after)
  }

  lemma SoundFirst(xs: seq<Event>, ys: seq<Event>, k: nat, e: Entry, level: nat, lo: nat, op: Op, commit: bool)
    requires k < |xs| && Sound(xs, k, e, level, lo, op, commit) && (commit ==> Apart(xs, ys))
    ensures Sound(xs + ys, k, e, level, lo, op, commit)
  {
    hide Play, SlotAt, Size;
    var zs := xs + ys;
    assert zs[..k] == xs[..k];
    if commit && Final(xs, k) {
      forall n | k < n < |zs| && SameSlot(zs[k], zs[n]) ensures !IsValid(zs[n].after) {
        if n >= |xs| { assert SameSlot(xs[k], ys[n - |xs|]); }
      }
    }
  }

  lemma SoundSecond(xs: seq<Event>, ys: seq<Event>, k: nat, e: Entry, level: nat, lo: nat, op: Op, commit: bool)
    requires k < |ys| && Sound(ys, k, Play(e, xs, level, lo), level, lo, op, commit)
    ensures Sound(xs + ys, |xs| + k, e, level, lo, op, commit)
  {
    hide Play, SlotAt, Size;
    var zs, n := xs + ys, |xs|;
    assert zs[..n + k] == xs + ys[..k];
    PlayConcat(e, xs, ys[..k], level, lo);
    assert zs[n + k] == ys[k];
    assert forall j | 0 <= j < |ys| :: zs[n + j] == ys[j];
    if ys[k].Write? && Bracket(ys, k, op, commit) {
      assert zs[n + k + 1] == ys[k + 1] && zs[n + k + 2] == ys[k + 2];
      assert Bracket(zs, n + k, op, commit);
    }
    if Final(ys, k) {
      forall j | n + k < j < |zs| && SameSlot(zs[n + k], zs[j]) ensures !IsValid(zs[j].after) {
        assert zs[j] == ys[j - n];
      }
    }
  }

  lemma FaithfulConcat(xs: seq<Event>, ys: seq<Event>, e: Entry, e1: Entry, e2: Entry, level: nat, lo: nat, op: Op,
                       commit: bool)
    requires Faithful(xs, e, e1, level, lo, op, commit) && Faithful(ys, e1, e2, level, lo, op, commit)
    requires commit ==> Apart(xs, ys)
    ensures Faithful(xs + ys, e, e2, level, lo, op, commit)
  {
    hide Play, Sound, Apart;
    PlayConcat(e, xs, ys, level, lo);
    forall k | 0 <= k < |xs + ys| ensures Sound(xs + ys, k, e, level, lo, op, commit) {
      if k < |xs| {
        SoundFirst(xs, ys, k, e, level, lo, op, commit);
      } else {
        SoundSecond(xs, ys, k - |xs|, e, level, lo, op, commit);
      }
    }
  }

  /** Work below entry `i` seen from the table. */
  lemma FaithfulBelow(evs: seq<Event>, t: nat, ks: seq<Entry>, i: nat, e: Entry, level: nat, lo: nat, op: Op,
                      commit: bool)
    requires i < |ks| && Inside(evs, level, EntryLo(lo, i, Size(level)))
    requires Faithful(evs, ks[i], e, level, EntryLo(lo, i, Size(level)), op, commit)
    ensures Faithful(evs, Table(t, ks), Table(t, ks[i := e]), level + 1, lo, op, commit)
  {
    hide Play, SlotAt, Put, Bracket, Final;
    var from, up, table := EntryLo(lo, i, Size(level)), level + 1, Table(t, ks);
    PlayBelow(evs, t, ks, i, level, lo);
    forall k | 0 <= k < |evs| ensures Sound(evs, k, table, up, lo, op, commit) {
      assert Sound(evs, k, ks[i], level, from, op, commit) && InSpan(evs[k], level, from);
      assert forall j | 0 <= j < k :: evs[..k][j] == evs[j];
      PlayBelow(evs[..k], t, ks, i, level, lo);
      if evs[k].Write? {
        PutBelow(evs[k], t, ks[i := Play(ks[i], evs[..k], level, from)], i, level, lo);
      }
    }
  }

  /** All stores are to slots that start below `bound`. */
  ghost predicate Left(evs: seq<Event>, bound: nat) {
    forall k | 0 <= k < |evs| && evs[k].Write? :: evs[k].lo < bound
  }

  lemma LeftApart(xs: seq<Event>, ys: seq<Event>, level: nat, from: nat)
    requires Left(xs, from) && Inside(ys, level, from)
    ensures Apart(xs, ys) && Left(xs + ys, from + Size(level))
  {
    forall k | 0 <= k < |ys| && ys[k].Write? ensures from <= ys[k].lo < from + Size(level) {
      assert InSpan(ys[k], level, from);
    }
  }

  /** One more entry of a table has been handled. */
  lemma FaithfulNext(xs: seq<Event>, ys: seq<Event>, t: nat, ks: seq<Entry>, cur: seq<Entry>, i: nat, e: Entry,
                     level: nat, lo: nat, op: Op, commit: bool)
    requires i < |ks| == |cur| && cur[i] == ks[i]
    requires Faithful(xs, Table(t, ks), Table(t, cur), level + 1, lo, op, commit) &&
             Left(xs, EntryLo(lo, i, Size(level)))
    requires Faithful(ys, ks[i], e, level, EntryLo(lo, i, Size(level)), op, commit) &&
             Inside(ys, level, EntryLo(lo, i, Size(level)))
    ensures Faithful(xs + ys, Table(t, ks), Table(t, cur[i := e]), level + 1, lo, op, commit)
    ensures Left(xs + ys, EntryLo(lo, i + 1, Size(level)))
  {
    hide Faithful, Left, Inside, Apart;
    LeftApart(xs, ys, level, EntryLo(lo, i, Size(level)));
    FaithfulBelow(ys, t, cur, i, e, level, lo, op, commit);
    FaithfulConcat(xs, ys, Table(t, ks), Table(t, cur), Table(t, cur[i := e]), level + 1, lo, op, commit);
  }

  // ---- The events of `replace` ---------------------------------------------------------------

  ghost function ReplaceEvents(e: Entry, e': Entry, level: nat, lo: nat, begin: nat): seq<Event> {
    if IsValid(e) && IsValid(e') then
      [Write(lo, level, Leaf(None)), Invalidate(begin, begin + Size(level)), Write(lo, level, e')]
    else [Write(lo, level, e')]
  }

  lemma ReplaceFaithful(e: Entry, e': Entry, level: nat, lo: nat, op: Op, commit: bool)
    requires commit ==> op.begin <= lo || !IsValid(e')
    requires commit || IsValid(e')
    ensures Faithful(ReplaceEvents(e, e', level, lo, Max(op.begin, lo)), e, e', level, lo, op, commit)
    ensures Inside(ReplaceEvents(e, e', level, lo, Max(op.begin, lo)), level, lo)
  {
    var evs := ReplaceEvents(e, e', level, lo, Max(op.begin, lo));
    assert evs[..0] == [];
    if |evs| == 3 {
      assert evs[..1] == [evs[0]] && evs[..2] == [evs[0], evs[1]];
      assert evs[..2][..1] == [evs[0]] && evs[..1][..0] == [];
      assert Play(e, evs[..1], level, lo) == Leaf(None);
      assert Play(e, evs[..2], level, lo) == Leaf(None);
      assert Bracket(evs, 0, op, commit);
    } else {
      assert evs[..|evs| - 1] == [];
    }
  }

  // ---- Breaks whose invalidation starts too late ---------------------------------------------

  /** Some valid descriptor that starts before the range is made invalid. */
  ghost predicate Missed(evs: seq<Event>, op: Op) {
    exists k :: 0 <= k < |evs| && Late(evs[k], op)
  }

  predicate Late(ev: Event, op: Op) {
    ev.Write? && !IsValid(ev.after) && ev.lo < op.begin
  }

  /** The range begins strictly inside a valid leaf that has to be split. */
  ghost predicate Cuts(e: Entry, level: nat, lo: nat, op: Op)
    decreases level, 0
  {
    if e.Leaf? then IsValid(e) && Partial(op, e, lo, level) && lo < op.begin
    else level > 0 && CutsUpTo(e.kids, level - 1, lo, op, |e.kids|)
  }

  ghost predicate CutsUpTo(ks: seq<Entry>, level: nat, lo: nat, op: Op, n: nat)
    requires n <= |ks|
    decreases level, 1
  {
    exists i :: 0 <= i < n && Cuts(ks[i], level, EntryLo(lo, i, Size(level)), op)
  }

  /** The first pass breaks such a leaf exactly if it has a page for the new table. */
  ghost predicate Gap(evs: seq<Event>, cuts: bool, op: Op, commit: bool, had: nat) {
    !commit ==> (Missed(evs, op) <==> cuts && had > 0)
  }

  lemma MissedConcat(xs: seq<Event>, ys: seq<Event>, op: Op)
    ensures Missed(xs + ys, op) <==> Missed(xs, op) || Missed(ys, op)
  {
    var zs := xs + ys;
    if Missed(xs, op) {
      var k :| 0 <= k < |xs| && Late(xs[k], op);
      assert Late(zs[k], op);
    }
    if Missed(ys, op) {
      var k :| 0 <= k < |ys| && Late(ys[k], op);
      assert Late(zs[|xs| + k], op);
    }
  }

  lemma {:induction false} CutsStart(e: Entry, level: nat, lo: nat, op: Op)
    requires WF(e, level) && Cuts(e, level, lo, op)
    ensures lo < op.begin && Overlaps(op, lo, level)
    decreases level
  {
    if e.Table? {
      var i :| 0 <= i < |e.kids| && Cuts(e.kids[i], level - 1, EntryLo(lo, i, Size(level - 1)), op);
      CutsStart(e.kids[i], level - 1, EntryLo(lo, i, Size(level - 1)), op);
      TableSpan(lo, level - 1);
      EntryLoOrder(lo, i, 512, Size(level - 1));
    }
  }

  /** An entry that needs no descent breaks nothing late. */
  lemma GapNothing(e: Entry, level: nat, lo: nat, op: Op, commit: bool, had: nat)
    requires WF(e, level) && (Skip(op, e, level) || Whole(op, lo, level))
    ensures Gap([], Cuts(e, level, lo, op), op, commit, had)
  {
    if Whole(op, lo, level) && Cuts(e, level, lo, op) { CutsStart(e, level, lo, op); }
  }

  /** Making the table for a crossed entry. */
  lemma GapSplit(e: Entry, e': Entry, level: nat, lo: nat, op: Op, commit: bool, had: nat, begin: nat)
    requires Partial(op, e, lo, level) && WF(e, level) && e.Leaf? && e'.Table? && e'.kids == Kids(e, level) && had > 0
    ensures Gap(ReplaceEvents(e, e', level, lo, begin), Cuts(e, level, lo, op), op, commit, had)
  {
    var evs := ReplaceEvents(e, e', level, lo, begin);
    if Cuts(e, level, lo, op) { assert Late(evs[0], op); }
  }

  lemma GapBelow(xs: seq<Event>, ys: seq<Event>, e: Entry, e1: Entry, level: nat, lo: nat, op: Op, commit: bool,
                 had: nat, mid: nat)
    requires Partial(op, e, lo, level) && WF(e, level) && e1.Table? && e1.kids == Kids(e, level) &&
             |e1.kids| == PTE_PER_PAGE
    requires if e.Table? then xs == [] && had == mid else had > 0 && Gap(xs, Cuts(e, level, lo, op), op, commit, had)
    requires Gap(ys, CutsUpTo(e1.kids, level - 1, lo, op, |e1.kids|), op, commit, mid)
    ensures Gap(xs + ys, Cuts(e, level, lo, op), op, commit, had)
  {
    MissedConcat(xs, ys, op);
    KidsWF(e, level);
    if e.Leaf? && CutsUpTo(e1.kids, level - 1, lo, op, |e1.kids|) {
      CutKid(e1.kids, level - 1, lo, op);
      var i :| 0 <= i < |e1.kids| && Cuts(e1.kids[i], level - 1, EntryLo(lo, i, Size(level - 1)), op);
    }
  }

  lemma CutKid(ks: seq<Entry>, level: nat, lo: nat, op: Op)
    requires WFs(ks, level) && CutsUpTo(ks, level, lo, op, |ks|)
    ensures lo < op.begin
  {
    var i :| 0 <= i < |ks| && Cuts(ks[i], level, EntryLo(lo, i, Size(level)), op);
    CutsStart(ks[i], level, EntryLo(lo, i, Size(level)), op);
    EntryLoOrder(lo, 0, i, Size(level));
  }
}
