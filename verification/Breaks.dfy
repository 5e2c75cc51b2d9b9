/** Break-before-make over the whole log of an update, replayed on the table it started from. */
module Breaks {
  import opened Common
  import opened Geometry
  import opened Entries
  import opened Footprint
  import opened Stores
  import opened Roots

  /** What stands in the slot of store `n` when the store is made. */
  ghost function Standing(tops: seq<Entry>, level: nat, evs: seq<Event>, n: nat): Option<Entry>
    requires n < |evs| && evs[n].Write?
  {
    SlotAt(Play(Root(tops), evs[..n], level + 2, 0), level + 2, 0, evs[n])
  }

  /** Store `j` makes a valid descriptor invalid. */
  ghost predicate Breaking(tops: seq<Entry>, level: nat, evs: seq<Event>, j: nat)
    requires j < |evs|
  {
    && evs[j].Write? && !IsValid(evs[j].after)
    && Standing(tops, level, evs, j).Some? && IsValid(Standing(tops, level, evs, j).value)
  }

  /** Store `k` makes the slot of store `j` valid again. */
  ghost predicate Remaking(evs: seq<Event>, j: nat, k: nat)
    requires j < |evs| && k < |evs|
  {
    j < k && SameSlot(evs[j], evs[k]) && IsValid(evs[k].after)
  }

  predicate Covers(ev: Event, broken: Event) {
    ev.Invalidate? && broken.Write? && ev.begin <= broken.lo && broken.lo + Size(broken.level) <= ev.end
  }

  /** Between breaking and remaking a descriptor, its whole span is invalidated. */
  ghost predicate SpansInvalidated(tops: seq<Entry>, level: nat, evs: seq<Event>) {
    forall j, k | 0 <= j < |evs| && 0 <= k < |evs| && Breaking(tops, level, evs, j) && Remaking(evs, j, k) ::
      exists n :: j < n < k && Covers(evs[n], evs[j])
  }

  lemma PassFaithful(evs: seq<Event>, tops: seq<Entry>, cur: seq<Entry>, level: nat, op: Op, commit: bool)
    requires RootLogged(evs, tops, cur, level, op, commit)
    ensures Faithful(evs, Root(tops), Root(cur), level + 2, 0, op, commit)
  {
    hide RawAt, QuietRoot, Faithful;
  }

  /** Each store of an update, on the table as the stores before it left it. */
  lemma UpdateSound(ok: bool, m: Mem, m': Mem, tops: seq<Entry>, mid: seq<Entry>, fin: seq<Entry>, level: nat, op: Op,
                    evs1: seq<Event>, evs2: seq<Event>, n: nat)
    requires Updated(ok, m, m', tops, mid, fin, level, op, evs1, evs2) && n < |evs1 + evs2|
    ensures Sound(evs1 + evs2, n, Root(tops), level + 2, 0, op, n >= |evs1|)
  {
    hide RootLogged, Outcome, Balanced, Gap, Sound, Play, RootLost;
    PassFaithful(evs1, tops, mid, level, op, false);
    if n < |evs1| {
      SoundFirst(evs1, evs2, n, Root(tops), level + 2, 0, op, false);
    } else {
      CommitSound(evs2, mid, fin, level, op, n - |evs1|);
      SoundSecond(evs1, evs2, n - |evs1|, Root(tops), level + 2, 0, op, true);
    }
  }

  lemma CommitSound(evs: seq<Event>, mid: seq<Entry>, fin: seq<Entry>, level: nat, op: Op, k: nat)
    requires evs != [] && evs[|evs| - 1].Invalidate? && RootLogged(evs[..|evs| - 1], mid, fin, level, op, true) &&
             k < |evs|
    ensures Sound(evs, k, Root(mid), level + 2, 0, op, true)
  {
    hide RootLogged, Play, SlotAt;
    var xs, ys := evs[..|evs| - 1], [evs[|evs| - 1]];
    assert evs == xs + ys;
    PassFaithful(xs, mid, fin, level, op, true);
    if k < |xs| { SoundFirst(xs, ys, k, Root(mid), level + 2, 0, op, true); }
  }

  /** The log is the whole story: replaying its stores on the table before gives the table after. */
  lemma LogReplays(ok: bool, m: Mem, m': Mem, tops: seq<Entry>, mid: seq<Entry>, fin: seq<Entry>, level: nat, op: Op,
                   evs1: seq<Event>, evs2: seq<Event>)
    requires Updated(ok, m, m', tops, mid, fin, level, op, evs1, evs2)
    ensures Play(Root(tops), evs1 + evs2, level + 2, 0) == Root(fin)
  {
    hide RootLogged, Balanced, Gap, RootPrepared, RootNeed, RootCommit, RootLost;
    PassFaithful(evs1, tops, mid, level, op, false);
    PlayConcat(Root(tops), evs1, evs2, level + 2, 0);
    if ok { PassFaithful(evs2[..|evs2| - 1], mid, fin, level, op, true); }
  }

  /** No store of an update overwrites a valid descriptor by a valid one. */
  lemma BreakBeforeMake(ok: bool, m: Mem, m': Mem, tops: seq<Entry>, mid: seq<Entry>, fin: seq<Entry>, level: nat,
                        op: Op, evs1: seq<Event>, evs2: seq<Event>, n: nat)
    requires Updated(ok, m, m', tops, mid, fin, level, op, evs1, evs2)
    requires n < |evs1 + evs2| && (evs1 + evs2)[n].Write?
    ensures var was := Standing(tops, level, evs1 + evs2, n);
            was.Some? && !(IsValid(was.value) && IsValid((evs1 + evs2)[n].after))
  {
    hide Updated, Play, SlotAt;
    UpdateSound(ok, m, m', tops, mid, fin, level, op, evs1, evs2, n);
  }

  lemma BracketOf(ok: bool, m: Mem, m': Mem, tops: seq<Entry>, mid: seq<Entry>, fin: seq<Entry>, level: nat, op: Op,
                  evs1: seq<Event>, evs2: seq<Event>, j: nat, k: nat)
    requires Updated(ok, m, m', tops, mid, fin, level, op, evs1, evs2)
    requires var evs := evs1 + evs2;
             j < |evs| && k < |evs| && Breaking(tops, level, evs, j) && Remaking(evs, j, k)
    ensures j + 1 < k && Bracket(evs1 + evs2, j, op, j >= |evs1|)
  {
    hide Updated, Play, SlotAt;
    UpdateSound(ok, m, m', tops, mid, fin, level, op, evs1, evs2, j);
  }

  /** Before a descriptor that an update broke is made valid again, one entry's size is invalidated from
      where the update enters the slot. */
  lemma InvalidatedBetween(ok: bool, m: Mem, m': Mem, tops: seq<Entry>, mid: seq<Entry>, fin: seq<Entry>, level: nat,
                           op: Op, evs1: seq<Event>, evs2: seq<Event>, j: nat, k: nat)
    requires Updated(ok, m, m', tops, mid, fin, level, op, evs1, evs2)
    requires var evs := evs1 + evs2;
             j < |evs| && k < |evs| && Breaking(tops, level, evs, j) && Remaking(evs, j, k)
    ensures var evs := evs1 + evs2;
            var b := Max(op.begin, evs[j].lo);
            exists n :: j < n < k && evs[n] == Invalidate(b, b + Size(evs[j].level))
  {
    hide Updated;
    BracketOf(ok, m, m', tops, mid, fin, level, op, evs1, evs2, j, k);
    assert j < j + 1 < k;
  }

  /** The whole span of every descriptor that is broken and remade is invalidated in between, except
      exactly when the range begins strictly inside a valid leaf that has to be split and there is a page
      to split it with. */
  lemma SpansInvalidatedIff(ok: bool, m: Mem, m': Mem, tops: seq<Entry>, mid: seq<Entry>, fin: seq<Entry>, level: nat,
                            op: Op, evs1: seq<Event>, evs2: seq<Event>)
    requires Updated(ok, m, m', tops, mid, fin, level, op, evs1, evs2)
    ensures SpansInvalidated(tops, level, evs1 + evs2) <==> !(CutsUpTo(tops, level + 1, 0, op, |tops|) && m.avail != {})
  {
    hide RootLogged, Outcome, Balanced, RootLost, Cuts, CutsUpTo, Standing;
    var evs := evs1 + evs2;
    if CutsUpTo(tops, level + 1, 0, op, |tops|) && m.avail != {} {
      var j :| 0 <= j < |evs1| && Late(evs1[j], op);
      LateBreak(ok, m, m', tops, mid, fin, level, op, evs1, evs2, j);
    } else {
      forall j, k | 0 <= j < |evs| && 0 <= k < |evs| && Breaking(tops, level, evs, j) && Remaking(evs, j, k)
        ensures exists n :: j < n < k && Covers(evs[n], evs[j])
      {
        BracketOf(ok, m, m', tops, mid, fin, level, op, evs1, evs2, j, k);
        if j < |evs1| { assert !Late(evs1[j], op); }
        assert j < j + 1 < k && Covers(evs[j + 1], evs[j]);
      }
    }
  }

  lemma LateBreak(ok: bool, m: Mem, m': Mem, tops: seq<Entry>, mid: seq<Entry>, fin: seq<Entry>, level: nat, op: Op,
                  evs1: seq<Event>, evs2: seq<Event>, j: nat)
    requires Updated(ok, m, m', tops, mid, fin, level, op, evs1, evs2) && j < |evs1| && Late(evs1[j], op)
    ensures !SpansInvalidated(tops, level, evs1 + evs2)
  {
    hide Updated, Play, SlotAt;
    var evs := evs1 + evs2;
    UpdateSound(ok, m, m', tops, mid, fin, level, op, evs1, evs2, j);
    assert Breaking(tops, level, evs, j) && Remaking(evs, j, j + 2);
  }
}
