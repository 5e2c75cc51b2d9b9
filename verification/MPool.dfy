/** A pool with a fallback chain (`MPool`): allocation falls through to the fallback, freed pages
    stay in the pool itself, and dropping a pool hands its pages to the fallback. */
module MPool {
  import opened Common
  import opened Pool

  class MPool {
    const pool: Lists
    const fallback: MPool?
    ghost const Repr: set<object>

    /** The pages of this pool, which no other pool can allocate from. */
    ghost var own: set<nat>

    /** Every page that an allocation from this pool may return. */
    ghost var avail: set<nat>

    ghost predicate Valid()
      reads this, Repr
      decreases Repr, 0
    {
      && this in Repr && pool in Repr && pool.chunkList in Repr && pool.entryList in Repr
      && pool.Valid() && own == pool.free
      && (fallback == null ==> avail == own)
      && (fallback != null ==>
            && fallback in Repr && fallback.Repr < Repr
            && this !in fallback.Repr && pool !in fallback.Repr
            && pool.chunkList !in fallback.Repr && pool.entryList !in fallback.Repr
            && fallback.Valid()
            && own !! fallback.avail && avail == own + fallback.avail)
    }

    /** No pool of the chain can serve the request. */
    ghost predicate Exhausted(count: nat, align: nat)
      requires Valid() && align > 0
      reads this, Repr
      decreases Repr, 1
    {
      && (if count == 1 && align == 1 then pool.free == {}
          else NoneFits(pool.chunkList.elems, pool.size, count, align))
      && (fallback != null ==> fallback.Exhausted(count, align))
    }

    /** An empty pool of its own. */
    constructor New()
      ensures Valid() && fallback == null && own == {} && avail == {}
      ensures fresh(Repr)
    {
      var p := new Lists();
      pool := p;
      fallback := null;
      own, avail := {}, {};
      Repr := {this, p, p.chunkList, p.entryList};
    }

    constructor WithFallback(f: MPool)
      requires f.Valid()
      ensures Valid() && fallback == f && own == {} && avail == f.avail
      ensures fresh(Repr - f.Repr)
    {
      var p := new Lists();
      pool := p;
      fallback := f;
      own, avail := {}, f.avail;
      Repr := {this, p, p.chunkList, p.entryList} + f.Repr;
    }

    /** Fails only when the whole chain is empty, and uses the pool's own pages first. */
    method Alloc() returns (r: Option<nat>)
      requires Valid()
      modifies Repr
      ensures Valid()
      ensures r.None? <==> old(avail) == {}
      ensures r.None? ==> avail == {} && own == old(own)
      ensures r.Some? ==> r.value != 0 && r.value in old(avail) && avail == old(avail) - {r.value}
      ensures r.Some? ==> own == old(own) - {r.value} && (old(own) != {} ==> r.value in old(own))
      decreases Repr, 1
    {
      hide Lists.Valid;
      r := pool.Alloc();
      own := pool.free;
      avail := own + if fallback == null then {} else fallback.avail;
      if r.Some? || fallback == null {
        return;
      }
      assert avail == old(avail);
      r := AllocBelow();
    }

    method AllocBelow() returns (r: Option<nat>)
      requires Valid() && own == {} && fallback != null
      modifies this, fallback.Repr
      ensures Valid() && own == {}
      ensures r.None? <==> old(avail) == {}
      ensures r.None? ==> avail == {}
      ensures r.Some? ==> r.value != 0 && r.value in old(avail) && avail == old(avail) - {r.value}
      decreases Repr, 0
    {
      hide Lists.Valid;
      r := fallback.Alloc();
      avail := fallback.avail;
    }

    /** Fails only when no pool of the chain has a chunk that fits. */
    method AllocPages(count: nat, align: nat) returns (r: Option<nat>)
      requires Valid() && align > 0
      modifies Repr
      ensures Valid()
      ensures r.None? <==> old(Exhausted(count, align))
      ensures r.None? ==> avail == old(avail)
      ensures r.Some? ==> r.value != 0 && Taken(old(avail), avail, r.value, count, align)
      decreases Repr, 1
    {
      hide Lists.Valid;
      r := pool.AllocPages(count, align);
      own := pool.free;
      avail := own + if fallback == null then {} else fallback.avail;
      if r.Some? {
        assert avail == old(avail) - PagesAt(old(avail), r.value, count);
      } else if fallback != null {
        r := AllocPagesBelow(count, align);
      }
    }

    method AllocPagesBelow(count: nat, align: nat) returns (r: Option<nat>)
      requires Valid() && align > 0 && fallback != null
      modifies this, fallback.Repr
      ensures Valid()
      ensures r.None? <==> old(fallback.Exhausted(count, align))
      ensures r.None? ==> avail == old(avail)
      ensures r.Some? ==> r.value != 0 && Taken(old(avail), avail, r.value, count, align)
      decreases Repr, 0
    {
      hide Lists.Valid;
      r := fallback.AllocPages(count, align);
      avail := own + fallback.avail;
      if r.Some? {
        assert avail == old(avail) - PagesAt(old(avail), r.value, count);
      }
    }

    lemma OwnAvailable()
      requires Valid()
      ensures own <= avail
    {
    }

    method Free(page: nat)
      requires Valid() && page != 0 && page !in avail
      modifies Repr
      ensures Valid()
      ensures own == old(own) + {page} && avail == old(avail) + {page}
    {
      hide Lists.Valid;
      pool.Free(page);
      own, avail := own + {page}, avail + {page};
    }

    /** Frees a number of contiguous pages. */
    method FreePages(c: nat, n: nat)
      requires Valid() && c != 0 && n > 0 && ChunkSet(c, n) !! avail
      modifies Repr
      ensures Valid()
      ensures own == old(own) + ChunkSet(c, n) && avail == old(avail) + ChunkSet(c, n)
    {
      hide Lists.Valid;
      pool.FreePages(c, n);
      own, avail := own + ChunkSet(c, n), avail + ChunkSet(c, n);
    }

    /** What other CPUs may do at any time: take any number of pages out of the fallback. */
    method OthersTake(n: nat)
      requires Valid() && fallback != null
      modifies Repr
      ensures Valid() && own == old(own) && avail <= old(avail)
    {
      hide Lists.Valid;
      for i := 0 to n
        invariant Valid() && own == old(own) && avail <= old(avail)
      {
        var _ := fallback.Alloc();
        avail := own + fallback.avail;
      }
    }

    /** What an update of some other page table may do: take pages out of this very pool. */
    method TakeAny(n: nat)
      requires Valid()
      modifies Repr
      ensures Valid() && own <= old(own) && avail <= old(avail)
    {
      hide Lists.Valid;
      for i := 0 to n
        invariant Valid() && own <= old(own) && avail <= old(avail)
      {
        var _ := Alloc();
      }
    }

    /** Moves exactly the pool's free pages to the fallback; without one they stay where they are, lost. */
    method Drop()
      requires Valid()
      modifies Repr
      ensures Valid() && avail == old(avail)
      ensures fallback == null ==> own == old(own)
      ensures fallback != null ==> own == {} && fallback.Valid() && fallback.avail == avail
      ensures fallback != null ==> fallback.own == old(fallback.own) + old(own)
    {
      hide Lists.Valid;
      if fallback != null {
        pool.MergeInto(fallback.pool);
        fallback.own, fallback.avail := fallback.own + own, fallback.avail + own;
        own := {};
      }
    }
  }
}
