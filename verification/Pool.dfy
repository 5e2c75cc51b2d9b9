/** The page pool of `mpool.rs`: single free pages and free chunks in two intrusive lists, and the
    fallback chain. Chunk sizes live in headers written into the free pages themselves. Pages are
    named by frame number, so the page at byte address `4096 * f` is `f` and 0 is never free. */
module Pool {
  import opened Common
  import opened Geometry
  import opened SList

  /** `q` is one of the `n` pages starting at `c`. */
  ghost predicate InChunk(q: nat, c: nat, n: nat) {
    c <= q < c + n
  }

  ghost function PagesAt(free: set<nat>, c: nat, n: nat): set<nat> {
    set q | q in free && InChunk(q, c, n)
  }

  ghost predicate Apart(c: nat, n: nat, d: nat, m: nat) {
    c + n <= d || d + m <= c
  }

  /** The size field of the chunk header at `c`. */
  function Len(size: map<nat, nat>, c: nat): nat {
    if c in size then size[c] else 0
  }

  ghost predicate GoodChunk(free: set<nat>, c: nat, size: map<nat, nat>) {
    && c != 0 && Len(size, c) > 0
    && forall q | InChunk(q, c, Len(size, c)) :: q in free
  }

  /** The two lists hold each page of `free` exactly once and nothing else. */
  ghost predicate Covers(free: set<nat>, entries: seq<nat>, chunks: seq<nat>, size: map<nat, nat>) {
    && Distinct(entries)
    && (forall e | e in entries :: e != 0 && e in free)
    && (forall c | c in chunks :: GoodChunk(free, c, size))
    && (forall c, e | c in chunks && e in entries :: !InChunk(e, c, Len(size, c)))
    && (forall i, j | 0 <= i < j < |chunks| :: Apart(chunks[i], Len(size, chunks[i]), chunks[j], Len(size, chunks[j])))
    && (forall q | q in free :: q in entries || exists c :: c in chunks && InChunk(q, c, Len(size, c)))
  }

  lemma RemoveEntry(free: set<nat>, entries: seq<nat>, chunks: seq<nat>, size: map<nat, nat>)
    requires Covers(free, entries, chunks, size) && entries != []
    ensures entries[0] in free && entries[0] != 0
    ensures Covers(free - {entries[0]}, entries[1..], chunks, size)
  {
    var e, free' := entries[0], free - {entries[0]};
    assert e in entries;
    forall c | c in chunks ensures GoodChunk(free', c, size) {
      assert GoodChunk(free, c, size) && !InChunk(e, c, Len(size, c));
    }
    FirstOnce(entries);
    forall q | q in free' ensures q in entries[1..] || exists c :: c in chunks && InChunk(q, c, Len(size, c)) {
      if q in entries { assert q != entries[0]; }
    }
  }

  lemma FirstOnce(s: seq<nat>)
    requires Distinct(s) && s != []
    ensures Distinct(s[1..]) && s[0] !in s[1..]
  {
  }

  lemma AddEntry(free: set<nat>, entries: seq<nat>, chunks: seq<nat>, size: map<nat, nat>, e: nat)
    requires Covers(free, entries, chunks, size) && e != 0 && e !in free
    ensures e !in entries && Covers(free + {e}, [e] + entries, chunks, size)
  {
    forall c | c in chunks ensures GoodChunk(free + {e}, c, size) && !InChunk(e, c, Len(size, c)) {
      assert GoodChunk(free, c, size);
    }
  }

  lemma RemoveChunk(free: set<nat>, entries: seq<nat>, chunks: seq<nat>, size: map<nat, nat>, k: nat)
    requires Covers(free, entries, chunks, size) && k < |chunks|
    ensures GoodChunk(free, chunks[k], size)
    ensures var c := chunks[k];
            Covers(free - PagesAt(free, c, Len(size, c)), entries, Without(chunks, k), size)
  {
    var c, rest := chunks[k], Without(chunks, k);
    var free' := free - PagesAt(free, c, Len(size, c));
    assert forall i | 0 <= i < |rest| :: rest[i] == chunks[if i < k then i else i + 1];
    forall d | d in rest ensures d in chunks && GoodChunk(free', d, size) {
      var i :| 0 <= i < |rest| && rest[i] == d;
      var j := if i < k then i else i + 1;
      assert chunks[j] == d && chunks[k] == c;
      assert GoodChunk(free, d, size);
    }
    forall q | q in free' && q !in entries
      ensures exists d :: d in rest && InChunk(q, d, Len(size, d))
    {
      StillHeld(q, chunks, size, k);
    }
  }

  lemma StillHeld(q: nat, chunks: seq<nat>, size: map<nat, nat>, k: nat)
    requires k < |chunks| && !InChunk(q, chunks[k], Len(size, chunks[k]))
    requires exists d :: d in chunks && InChunk(q, d, Len(size, d))
    ensures exists d :: d in Without(chunks, k) && InChunk(q, d, Len(size, d))
  {
    var d :| d in chunks && InChunk(q, d, Len(size, d));
    var i :| 0 <= i < |chunks| && chunks[i] == d;
    assert d == Without(chunks, k)[if i < k then i else i - 1];
  }

  lemma AddChunk(free: set<nat>, entries: seq<nat>, chunks: seq<nat>, size: map<nat, nat>, c: nat, n: nat,
                 pages: set<nat>)
    requires Covers(free, entries, chunks, size)
    requires c != 0 && n > 0
    requires forall q :: q in pages <==> InChunk(q, c, n)
    requires free !! pages
    ensures c !in chunks
    ensures Covers(free + pages, entries, [c] + chunks, size[c := n])
  {
    var size', chunks', free' := size[c := n], [c] + chunks, free + pages;
    assert InChunk(c, c, n);
    forall d | d in chunks ensures d != c && Apart(c, n, d, Len(size', d)) && GoodChunk(free', d, size') {
      assert GoodChunk(free, d, size) && InChunk(d, d, Len(size, d));
      assert !(InChunk(Max(c, d), c, n) && InChunk(Max(c, d), d, Len(size, d)));
    }
    forall i, j | 0 <= i < j < |chunks'|
      ensures Apart(chunks'[i], Len(size', chunks'[i]), chunks'[j], Len(size', chunks'[j]))
    {
      assert chunks'[j] == chunks[j - 1] && chunks[j - 1] in chunks;
      if i > 0 { assert chunks'[i] == chunks[i - 1] && chunks[i - 1] in chunks; }
    }
    forall q | q in free' && q !in entries ensures exists d :: d in chunks' && InChunk(q, d, Len(size', d)) {
      if q in free {
        var d :| d in chunks && InChunk(q, d, Len(size, d));
        assert d in chunks' && InChunk(q, d, Len(size', d));
      } else {
        assert c in chunks' && InChunk(q, c, Len(size', c));
      }
    }
  }

  lemma NothingFree(free: set<nat>, size: map<nat, nat>)
    requires Covers(free, [], [], size)
    ensures free == {}
  {
  }

  lemma HeadTaken(free: set<nat>, free': set<nat>, c: nat, n: nat)
    requires n > 0 && forall q | InChunk(q, c, n) :: q in free
    requires forall q :: q in free' <==> (q in free && q !in PagesAt(free, c, n)) || InChunk(q, c + 1, n - 1)
    ensures c in free && free' == free - {c}
  {
    assert InChunk(c, c, n);
    forall q ensures q in free' <==> q in free - {c} {
      if InChunk(q, c + 1, n - 1) { assert InChunk(q, c, n); }
    }
  }

  /** Where an aligned allocation inside the chunk at `c` would start: the first multiple of
      `align` that is not below `c`. */
  function AlignedStart(c: nat, align: nat): (s: nat)
    requires align > 0
    ensures c <= s < c + align
  {
    if c == 0 then 0 else if c <= align then align else align + AlignedStart(c - align, align)
  }

  predicate Fits(c: nat, n: nat, count: nat, align: nat)
    requires align > 0
  {
    AlignedStart(c, align) + count <= c + n
  }

  lemma {:induction false} StartAligned(c: nat, align: nat)
    requires align > 0
    ensures AlignedStart(c, align) % align == 0
  {
    if c > align {
      StartAligned(c - align, align);
      SumDivides(align, AlignedStart(c - align, align), align);
    }
  }

  /** The start is the value `round_up` computes with a division. */
  lemma StartIsRoundUp(c: nat, align: nat)
    requires align > 0
    ensures AlignedStart(c, align) == (c + align - 1) / align * align
  {
    StartAligned(c, align);
    MultipleAbove(c, align, AlignedStart(c, align));
  }

  lemma MultipleAbove(c: nat, align: nat, s: nat)
    requires align > 0 && s % align == 0 && c <= s < c + align
    ensures s == (c + align - 1) / align * align
  {
    var q := s / align;
    assert s == q * align;
    DivUnique(c + align - 1, align, q);
  }

  ghost predicate NoneFits(chunks: seq<nat>, size: map<nat, nat>, count: nat, align: nat)
    requires align > 0
  {
    forall i | 0 <= i < |chunks| :: !Fits(chunks[i], Len(size, chunks[i]), count, align)
  }

  /** `count` contiguous aligned pages starting at `start` left the free set, and nothing else. */
  ghost predicate Taken(free: set<nat>, free': set<nat>, start: nat, count: nat, align: nat)
    requires align > 0
  {
    && start % align == 0
    && (forall q | InChunk(q, start, count) :: q in free)
    && free' == free - PagesAt(free, start, count)
  }

  lemma Carved(free: set<nat>, free': set<nat>, c: nat, n: nat, start: nat, count: nat)
    requires c <= start && start + count <= c + n
    requires forall q | InChunk(q, c, n) :: q in free
    requires forall q :: q in free' <==>
                         || (q in free && q !in PagesAt(free, c, n))
                         || c <= q < start || start + count <= q < c + n
    ensures forall q | InChunk(q, start, count) :: q in free
    ensures free' == free - PagesAt(free, start, count)
  {
    forall q ensures q in free' <==> q in free - PagesAt(free, start, count) {
      if c <= q < c + n { assert InChunk(q, c, n); }
    }
  }

  class Lists {
    const chunkList: List
    const entryList: List
    var size: map<nat, nat>
    ghost var free: set<nat>

    ghost predicate Valid()
      reads this, chunkList, entryList
    {
      && chunkList != entryList
      && chunkList.Valid() && entryList.Valid()
      && Covers(free, entryList.elems, chunkList.elems, size)
    }

    constructor ()
      ensures Valid() && free == {}
      ensures fresh(chunkList) && fresh(entryList)
    {
      chunkList := new List();
      entryList := new List();
      size, free := map[], {};
    }

    method PopEntry() returns (e: Option<nat>)
      requires Valid()
      modifies this, entryList
      ensures Valid()
      ensures e.None? ==> free == old(free) && entryList.elems == []
      ensures e.Some? ==> e.value != 0 && e.value in old(free) && free == old(free) - {e.value}
      ensures e.Some? ==> |entryList.elems| < |old(entryList.elems)|
    {
      hide Covers;
      ghost var entries := entryList.elems;
      e := entryList.Pop();
      if e.Some? {
        RemoveEntry(free, entries, chunkList.elems, size);
        assert entries[1..] == entryList.elems;
        free := free - {e.value};
      }
    }

    method PopChunk() returns (c: Option<nat>)
      requires Valid()
      modifies this, chunkList
      ensures Valid() && size == old(size)
      ensures c.None? ==> free == old(free) && chunkList.elems == []
      ensures c.Some? ==> c.value in size && GoodChunk(old(free), c.value, size)
      ensures c.Some? ==> free == old(free) - PagesAt(old(free), c.value, size[c.value])
      ensures c.Some? ==> |chunkList.elems| < |old(chunkList.elems)|
    {
      hide Covers;
      ghost var chunks := chunkList.elems;
      c := chunkList.Pop();
      if c.Some? {
        RemoveChunk(free, entryList.elems, chunks, size, 0);
        assert Without(chunks, 0) == chunkList.elems;
        free := free - PagesAt(free, c.value, size[c.value]);
      }
    }

    /** Fails only when no page is free. */
    method Alloc() returns (r: Option<nat>)
      requires Valid()
      modifies this, chunkList, entryList
      ensures Valid()
      ensures r.None? <==> old(free) == {}
      ensures r.None? ==> free == old(free)
      ensures r.Some? ==> r.value in old(free) && r.value != 0 && free == old(free) - {r.value}
    {
      r := PopEntry();
      if r.Some? {
        return;
      }
      r := PopChunk();
      if r.None? {
        NothingFree(free, size);
        return;
      }
      SplitHead(r.value, size[r.value], old(free));
    }

    /** Gives all pages of a chunk but the first back as a smaller chunk. */
    method SplitHead(c: nat, n: nat, ghost was: set<nat>)
      requires Valid() && c != 0 && n > 0
      requires (forall q | InChunk(q, c, n) :: q in was) && free == was - PagesAt(was, c, n)
      modifies this, chunkList
      ensures Valid() && c in was && free == was - {c}
    {
      hide Covers;
      if n > 1 {
        FreePages(c + 1, n - 1);
      }
      HeadTaken(was, free, c, n);
    }

    /** Takes `count` contiguous pages aligned to `align` pages out of the first chunk that has
        room and returns exactly the leftovers. The entry list is used only for single pages. */
    method AllocPages(count: nat, align: nat) returns (r: Option<nat>)
      requires Valid() && align > 0
      modifies this, chunkList, entryList
      ensures Valid()
      ensures r.None? ==> free == old(free)
      ensures r.None? <==> if count == 1 && align == 1 then old(free) == {}
                           else NoneFits(old(chunkList.elems), old(size), count, align)
      ensures r.Some? ==> r.value != 0 && Taken(old(free), free, r.value, count, align)
    {
      if count == 1 && align == 1 {
        r := Alloc();
        if r.Some? { assert PagesAt(old(free), r.value, 1) == {r.value}; }
      } else {
        r := AllocFromChunks(count, align);
      }
    }

    method AllocFromChunks(count: nat, align: nat) returns (r: Option<nat>)
      requires Valid() && align > 0
      modifies this, chunkList
      ensures Valid()
      ensures r.None? ==> free == old(free)
      ensures r.None? <==> NoneFits(old(chunkList.elems), old(size), count, align)
      ensures r.Some? ==> r.value != 0 && Taken(old(free), free, r.value, count, align)
    {
      hide Covers;
      var sizes := size;
      ghost var chunks := chunkList.elems;
      var c, k := chunkList.PopIf((c: nat) => Fits(c, Len(sizes, c), count, align));
      if c.None? {
        return None;
      }
      var chunk := c.value;
      RemoveChunk(free, entryList.elems, chunks, size, k);
      var n, start := size[chunk], AlignedStart(chunk, align);
      free := free - PagesAt(free, chunk, n);
      ReturnLeftovers(chunk, start, start + count, chunk + n);
      StartAligned(chunk, align);
      Carved(old(free), free, chunk, n, start, count);
      r := Some(start);
    }

    /** Pushes what remains of a chunk before and after the pages taken from it. */
    method ReturnLeftovers(chunkStart: nat, start: nat, end: nat, chunkEnd: nat)
      requires Valid() && 0 < chunkStart <= start <= end <= chunkEnd
      requires forall q | chunkStart <= q < chunkEnd :: q !in free
      modifies this, chunkList
      ensures Valid()
      ensures forall q :: q in free <==>
                          || q in old(free)
                          || chunkStart <= q < start || end <= q < chunkEnd
    {
      if chunkStart < start {
        FreePages(chunkStart, start - chunkStart);
      }
      if end < chunkEnd {
        FreePages(end, chunkEnd - end);
      }
    }

    method Free(page: nat)
      requires Valid() && page != 0 && page !in free
      modifies this, entryList
      ensures Valid() && free == old(free) + {page}
    {
      AddEntry(free, entryList.elems, chunkList.elems, size, page);
      hide Covers;
      entryList.Push(page);
      free := free + {page};
    }

    /** Frees a number of contiguous pages. */
    method FreePages(c: nat, n: nat)
      requires Valid() && c != 0 && n > 0
      requires forall q | InChunk(q, c, n) :: q !in free
      modifies this, chunkList
      ensures Valid() && forall q :: q in free <==> q in old(free) || InChunk(q, c, n)
    {
      ghost var pages := ChunkSet(c, n);
      AddChunk(free, entryList.elems, chunkList.elems, size, c, n, pages);
      size := size[c := n];
      chunkList.Push(c);
      free := free + pages;
    }

    /** Moves every entry, then every chunk, to another pool. */
    method MergeInto(other: Lists)
      requires Valid() && other.Valid() && free !! other.free
      requires {this, chunkList, entryList} !! {other, other.chunkList, other.entryList}
      modifies this, chunkList, entryList, other, other.chunkList, other.entryList
      ensures Valid() && other.Valid()
      ensures free == {} && other.free == old(other.free) + old(free)
    {
      hide Covers;
      while true
        invariant Valid() && other.Valid()
        invariant free !! other.free && free + other.free == old(free) + old(other.free)
        decreases |entryList.elems|
      {
        var e := PopEntry();
        if e.None? {
          break;
        }
        other.Free(e.value);
      }
      while true
        invariant Valid() && entryList.elems == [] && other.Valid()
        invariant free !! other.free && free + other.free == old(free) + old(other.free)
        decreases |chunkList.elems|
      {
        var c := PopChunk();
        if c.None? {
          break;
        }
        other.FreePages(c.value, size[c.value]);
      }
      NothingFree(free, size);
    }
  }

  ghost function ChunkSet(c: nat, n: nat): (s: set<nat>)
    ensures forall q :: q in s <==> InChunk(q, c, n)
  {
    set q | c <= q < c + n && InChunk(q, c, n)
  }
}
