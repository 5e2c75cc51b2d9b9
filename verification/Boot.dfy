/** Carving the memory of secondary VMs out of the ranges found at boot. */
module Boot {
  import opened Common
  import opened Geometry

  const MAX_MEM_RANGES: nat := 20

  /** One more than the largest machine word. */
  const WORD: nat := 0x1_0000_0000_0000_0000

  /** The bytes `[begin, end)`. */
  datatype Range = Range(begin: nat, end: nat)

  predicate Has(r: Range, x: nat) {
    r.begin <= x < r.end
  }

  ghost predicate Apart(r: Range, s: Range) {
    forall x: nat :: !(Has(r, x) && Has(s, x))
  }

  ghost predicate AllApart(rs: seq<Range>) {
    forall i, j | 0 <= i < j < |rs| :: Apart(rs[i], rs[j])
  }

  predicate Inside(r: Range, s: Range) {
    s.begin <= r.begin <= r.end <= s.end
  }

  // ---- Carving -------------------------------------------------------------------------------

  /** Subtraction of machine words, which wraps around. */
  function Minus(x: nat, y: nat): nat {
    (x - y) % WORD
  }

  /** The length of a range as the code computes it. */
  function Length(r: Range): nat {
    Minus(r.end, r.begin)
  }

  predicate InWords(rs: seq<Range>) {
    forall k | 0 <= k < |rs| :: rs[k].begin < WORD && rs[k].end < WORD
  }

  /** The first range from `k` on that is long enough, or the number of ranges. */
  function Fit(rs: seq<Range>, size: nat, k: nat): (i: nat)
    requires k <= |rs|
    ensures k <= i <= |rs| && (i < |rs| ==> size <= Length(rs[i])) && forall j | k <= j < i :: Length(rs[j]) < size
    decreases |rs| - k
  {
    if k == |rs| || size <= Length(rs[k]) then k else Fit(rs, size, k + 1)
  }

  /** What is cut off the end of range `i`, and what is left of all ranges. */
  function Cut(rs: seq<Range>, i: nat, size: nat): Range
    requires i < |rs|
  {
    Range(Minus(rs[i].end, size), rs[i].end)
  }

  function Left(rs: seq<Range>, i: nat, size: nat): seq<Range>
    requires i < |rs|
  {
    rs[i := Range(rs[i].begin, Minus(rs[i].end, size))]
  }

  /** What is cut off a range lies inside the range exactly if the range does not end before it begins. */
  lemma CutInsideIff(rs: seq<Range>, i: nat, size: nat)
    requires InWords(rs) && i < |rs| && size <= Length(rs[i])
    ensures Inside(Cut(rs, i, size), rs[i]) <==> rs[i].begin <= rs[i].end
    ensures rs[i].begin <= rs[i].end ==> Cut(rs, i, size).begin == rs[i].end - size
  {
  }

  /** Takes `size` bytes from the end of the first range that is large enough. */
  method CarveOut(ranges: array<Range>, size: nat) returns (r: Option<Range>)
    requires size < WORD && InWords(ranges[..])
    modifies ranges
    ensures InWords(ranges[..])
    ensures var rs, i := old(ranges[..]), Fit(old(ranges[..]), size, 0);
            if i == |rs| then r.None? && ranges[..] == rs
            else r == Some(Cut(rs, i, size)) && ranges[..] == Left(rs, i, size)
  {
    var k := 0;
    while k < ranges.Length
      invariant k <= ranges.Length && ranges[..] == old(ranges[..])
      invariant Fit(ranges[..], size, 0) == Fit(ranges[..], size, k)
    {
      if size <= Minus(ranges[k].end, ranges[k].begin) {
        var end := ranges[k].end;
        var begin := Minus(end, size);
        ranges[k] := Range(ranges[k].begin, begin);
        return Some(Range(begin, end));
      }
      k := k + 1;
    }
    r := None;
  }

  // ---- Reserved ranges -----------------------------------------------------------------------

  /** What the ranges have lost at their beginnings and ends. */
  function Gaps(before: seq<Range>, after: seq<Range>): seq<Range>
    requires |before| == |after|
  {
    if before == [] then []
    else Gap(before[0], after[0]) + Gaps(before[1..], after[1..])
  }

  function Gap(b: Range, a: Range): seq<Range> {
    (if a.begin > b.begin then [Range(b.begin, a.begin)] else []) +
      (if a.end < b.end then [Range(a.end, b.end)] else [])
  }

  lemma {:induction false} GapsStep(before: seq<Range>, after: seq<Range>, i: nat)
    requires |before| == |after| && i < |before|
    ensures Gaps(before[..i + 1], after[..i + 1]) == Gaps(before[..i], after[..i]) + Gap(before[i], after[i])
    decreases i
  {
    var b, a := before[..i + 1], after[..i + 1];
    if i == 0 {
      assert b == [before[0]] && a == [after[0]];
      assert Gaps(b, a) == Gap(before[0], after[0]) + Gaps([], []);
    } else {
      GapsStep(before[1..], after[1..], i - 1);
      assert b[1..] == before[1..][..i] && a[1..] == after[1..][..i];
      assert before[..i][1..] == before[1..][..i - 1] && after[..i][1..] == after[1..][..i - 1];
    }
  }

  lemma {:induction false} GapsGrow(before: seq<Range>, after: seq<Range>, i: nat)
    requires |before| == |after| && i <= |before|
    ensures |Gaps(before[..i], after[..i])| <= |Gaps(before, after)|
    decreases |before| - i
  {
    if i < |before| {
      GapsGrow(before, after, i + 1);
      GapsStep(before, after, i);
    } else {
      assert before[..i] == before && after[..i] == after;
    }
  }

  /** Adds the differences to the reserved ranges, failing exactly when there are too many. */
  method UpdateReserved(reserved: seq<Range>, before: seq<Range>, after: seq<Range>) returns (ok: bool, r: seq<Range>)
    requires |before| == |after| && |reserved| <= MAX_MEM_RANGES
    ensures ok <==> |reserved| + |Gaps(before, after)| <= MAX_MEM_RANGES
    ensures ok ==> r == reserved + Gaps(before, after)
  {
    hide Gaps;
    r := reserved;
    var i := 0;
    NoGaps(before, after);
    while i < |before|
      invariant i <= |before| && r == reserved + Gaps(before[..i], after[..i]) && |r| <= MAX_MEM_RANGES
    {
      GapsStep(before, after, i);
      GapsGrow(before, after, i + 1);
      ghost var was := r;
      if after[i].begin > before[i].begin {
        if |r| >= MAX_MEM_RANGES {
          return false, r;
        }
        r := r + [Range(before[i].begin, after[i].begin)];
      }
      if after[i].end < before[i].end {
        if |r| >= MAX_MEM_RANGES {
          return false, r;
        }
        r := r + [Range(after[i].end, before[i].end)];
      }
      assert r == was + Gap(before[i], after[i]);
      i := i + 1;
    }
    assert before[..i] == before && after[..i] == after;
    ok := true;
  }

  lemma NoGaps(before: seq<Range>, after: seq<Range>)
    requires |before| == |after|
    ensures Gaps(before[..0], after[..0]) == []
  {
  }

  /** If no range has been shortened at its beginning, there is at most one gap for each. */
  lemma {:induction false} FewGaps(before: seq<Range>, after: seq<Range>)
    requires |before| == |after| && forall i | 0 <= i < |before| :: after[i].begin == before[i].begin
    ensures |Gaps(before, after)| <= |before|
  {
    if before != [] { FewGaps(before[1..], after[1..]); }
  }

  /** The gaps are exactly what has been taken away. */
  lemma {:induction false} GapsAre(before: seq<Range>, after: seq<Range>, x: nat)
    requires |before| == |after|
    requires forall i | 0 <= i < |before| :: after[i].begin == before[i].begin && after[i].end <= before[i].end
    ensures (exists g :: g in Gaps(before, after) && Has(g, x)) <==>
            exists i :: 0 <= i < |before| && after[i].end <= x < before[i].end
  {
    if before != [] {
      var b, a := before[1..], after[1..];
      GapsAre(b, a, x);
      var first := Gap(before[0], after[0]);
      assert Gaps(before, after) == first + Gaps(b, a);
      if exists i :: 0 <= i < |before| && after[i].end <= x < before[i].end {
        var i :| 0 <= i < |before| && after[i].end <= x < before[i].end;
        if i == 0 {
          var g := Range(after[0].end, before[0].end);
          assert g in first && Has(g, x);
        } else {
          assert a[i - 1].end <= x < b[i - 1].end;
          var g :| g in Gaps(b, a) && Has(g, x);
          assert g in Gaps(before, after);
        }
      }
      if g :| g in Gaps(before, after) && Has(g, x) {
        if g in first {
          assert after[0].end <= x < before[0].end;
        } else {
          assert g in Gaps(b, a);
          var i :| 0 <= i < |b| && a[i].end <= x < b[i].end;
          assert after[i + 1].end <= x < before[i + 1].end;
        }
      }
    }
  }

  // ---- Loading -------------------------------------------------------------------------------

  /** A VM of the manifest: its memory size, the size of its kernel if it has one, and whether the kernel
      can be copied. */
  datatype Request = Request(size: nat, kernel: Option<nat>, copies: bool)

  /** The memory size in whole pages. */
  function MemSize(q: Request): (n: nat)
    ensures n < WORD && n % PAGE_SIZE == 0
  {
    RoundUpToPage(q.size) % WORD
  }

  /** A region carved out for VM number `vm` of the manifest: was it taken from the primary VM, and given
      to the new one? */
  datatype Region = Region(vm: nat, range: Range, denied: bool, granted: bool)

  predicate Aligned(r: Range) {
    r.begin % PAGE_SIZE == 0 && r.end % PAGE_SIZE == 0 && r.begin <= r.end
  }

  /** The part of a boot memory range that lies below its last page boundary. */
  function Usable(r: Range): Range {
    Range(r.begin, RoundDownToPage(r.end))
  }

  /** Region `r` is part of what range `i` has lost. */
  predicate From(mem: seq<Range>, avail: seq<Range>, r: Range, i: nat)
    requires |mem| == |avail|
  {
    i < |mem| && avail[i].end <= r.begin && r.end <= Usable(mem[i]).end
  }

  ghost predicate Somewhere(mem: seq<Range>, avail: seq<Range>, r: Range)
    requires |mem| == |avail|
  {
    exists i: nat :: From(mem, avail, r, i)
  }

  predicate Shrunk(m: Range, a: Range) {
    a.begin == m.begin && a.begin <= a.end <= Usable(m).end && a.end % PAGE_SIZE == 0
  }

  ghost predicate Carving(mem: seq<Range>, avail: seq<Range>, regions: seq<Region>) {
    && |avail| == |mem| && (forall i | 0 <= i < |mem| :: Shrunk(mem[i], avail[i]))
    && (forall k | 0 <= k < |regions| :: Aligned(regions[k].range) && Somewhere(mem, avail, regions[k].range))
    && (forall k, l | 0 <= k < l < |regions| :: Apart(regions[k].range, regions[l].range))
  }

  lemma CarveStep(mem: seq<Range>, avail: seq<Range>, regions: seq<Region>, i: nat, r: Region)
    requires Carving(mem, avail, regions) && AllApart(mem) && i < |mem| && Aligned(r.range)
    requires avail[i].begin <= r.range.begin && r.range.end == avail[i].end
    ensures Carving(mem, avail[i := Range(avail[i].begin, r.range.begin)], regions + [r])
  {
    var avail', regions' := avail[i := Range(avail[i].begin, r.range.begin)], regions + [r];
    assert Shrunk(mem[i], avail[i]);
    assert From(mem, avail', r.range, i);
    forall k | 0 <= k < |regions|
      ensures Somewhere(mem, avail', regions[k].range) && Apart(regions[k].range, r.range)
    {
      var j: nat :| From(mem, avail, regions[k].range, j);
      assert From(mem, avail', regions[k].range, j);
      if j != i {
        assert Apart(mem[if j < i then j else i], mem[if j < i then i else j]) && Shrunk(mem[j], avail[j]);
        forall x: nat ensures !(Has(regions[k].range, x) && Has(r.range, x)) {
          assert !(Has(mem[i], x) && Has(mem[j], x));
        }
      }
    }
  }

  /** Each region has the size its VM asked for, and belongs to a different VM. */
  predicate Served(vms: seq<Request>, regions: seq<Region>, n: nat) {
    && (forall k | 0 <= k < |regions| :: ServedOne(vms, regions[k]) && regions[k].vm < n)
    && (forall k, l | 0 <= k < l < |regions| :: regions[k].vm < regions[l].vm)
  }

  predicate ServedOne(vms: seq<Request>, r: Region) {
    1 <= r.vm < |vms| && r.range.end == r.range.begin + MemSize(vms[r.vm])
  }

  lemma ServedNext(vms: seq<Request>, regions: seq<Region>, n: nat, r: Region)
    requires Served(vms, regions, n) && ServedOne(vms, r) && r.vm == n
    ensures Served(vms, regions + [r], n + 1)
  {
  }

  function Rounded(mem: seq<Range>): (rs: seq<Range>)
    ensures |rs| == |mem| && forall i | 0 <= i < |mem| :: rs[i] == Usable(mem[i])
  {
    seq(|mem|, i requires 0 <= i < |mem| => Usable(mem[i]))
  }

  /** Every range reaches its last page boundary. */
  predicate Proper(mem: seq<Range>) {
    forall i | 0 <= i < |mem| :: mem[i].begin <= Usable(mem[i]).end
  }

  /** Rounds the ends of all ranges down to the page size. */
  method Round(mem: seq<Range>) returns (a: array<Range>)
    ensures fresh(a) && a[..] == Rounded(mem)
  {
    a := new Range[|mem|](i requires 0 <= i < |mem| => mem[i]);
    var k := 0;
    while k < a.Length
      invariant k <= a.Length && forall i | 0 <= i < a.Length :: a[i] == if i < k then Usable(mem[i]) else mem[i]
    {
      a[k] := Range(a[k].begin, RoundDownToPage(a[k].end));
      k := k + 1;
    }
  }

  lemma RoundedCarving(mem: seq<Range>)
    requires Proper(mem)
    ensures Carving(mem, Rounded(mem), [])
  {
  }

  /** The range from which the memory of a VM is cut, if it has a kernel that fits and there is room. */
  function Room(avail: seq<Range>, q: Request): (i: nat)
    ensures i <= |avail|
  {
    if q.kernel.None? || MemSize(q) < q.kernel.value then |avail| else Fit(avail, MemSize(q), 0)
  }

  /** The regions for the VMs from number `k` on; VM 0 is the primary and gets none. */
  function Allotted(avail: seq<Range>, vms: seq<Request>, k: nat): seq<Range>
    decreases |vms| - k
  {
    if k >= |vms| then []
    else
      var i := Room(avail, vms[k]);
      if k == 0 || i == |avail| then Allotted(avail, vms, k + 1)
      else [Cut(avail, i, MemSize(vms[k]))] + Allotted(Left(avail, i, MemSize(vms[k])), vms, k + 1)
  }

  /** The memory for one VM, if it has a kernel that fits and there is room. */
  method FindRoom(a: array<Range>, q: Request) returns (r: Option<Range>)
    requires InWords(a[..])
    modifies a
    ensures InWords(a[..])
    ensures var rs, i := old(a[..]), Room(old(a[..]), q);
            if i == |rs| then r.None? && a[..] == rs
            else r == Some(Cut(rs, i, MemSize(q))) && a[..] == Left(rs, i, MemSize(q))
  {
    if q.kernel.None? {
      return None;
    }
    var size := MemSize(q);
    if size < q.kernel.value {
      return None;
    }
    r := CarveOut(a, size);
  }

  lemma CutAligned(m: Range, a: Range, size: nat)
    requires Shrunk(m, a) && m.end < WORD && size % PAGE_SIZE == 0 && size <= Length(a)
    ensures a.begin <= Minus(a.end, size) == a.end - size && Aligned(Range(Minus(a.end, size), a.end))
  {
  }

  /** A cut from proper ranges adds an aligned region of the size asked for. */
  lemma RoomCarves(mem: seq<Range>, avail: seq<Range>, regions: seq<Region>, q: Request, i: nat, r: Region)
    requires Carving(mem, avail, regions) && AllApart(mem) && InWords(mem) && i < |avail| && i == Room(avail, q)
    requires r.range == Cut(avail, i, MemSize(q))
    ensures Aligned(r.range) && r.range.end == r.range.begin + MemSize(q)
    ensures Carving(mem, Left(avail, i, MemSize(q)), regions + [r])
  {
    hide Minus, Length, AllApart, MemSize, Aligned;
    CarvingAt(mem, avail, regions, i);
    CutAligned(mem[i], avail[i], MemSize(q));
    CarveStep(mem, avail, regions, i, r);
  }

  /** What every cut leaves, whatever the ranges: their beginnings stay and their ends stay page-aligned. */
  ghost predicate Trimmed(mem: seq<Range>, avail: seq<Range>) {
    |avail| == |mem| && forall i | 0 <= i < |mem| :: avail[i].begin == mem[i].begin && avail[i].end % PAGE_SIZE == 0
  }

  /** Ranges that reach their last page boundary and do not overlap. */
  ghost predicate Orderly(mem: seq<Range>) {
    Proper(mem) && AllApart(mem)
  }

  lemma RoundedTrimmed(mem: seq<Range>)
    ensures Trimmed(mem, Rounded(mem)) && (InWords(mem) ==> InWords(Rounded(mem)))
  {
  }

  /** A cut that does not wrap around is an aligned region of the size asked for. */
  lemma CutTrims(mem: seq<Range>, avail: seq<Range>, q: Request, i: nat)
    requires Trimmed(mem, avail) && InWords(avail) && i < |avail| && i == Room(avail, q)
    ensures var r := Cut(avail, i, MemSize(q));
            && Trimmed(mem, Left(avail, i, MemSize(q)))
            && (r.begin <= r.end ==> Aligned(r) && r.end == r.begin + MemSize(q))
  {
    hide MemSize, Length;
    CutEnds(avail[i].end, MemSize(q));
  }

  lemma CutEnds(end: nat, size: nat)
    requires end < WORD && size < WORD && end % PAGE_SIZE == 0 && size % PAGE_SIZE == 0
    ensures Minus(end, size) % PAGE_SIZE == 0 && (Minus(end, size) <= end ==> end == Minus(end, size) + size)
  {
  }

  lemma CarvingAt(mem: seq<Range>, avail: seq<Range>, regions: seq<Region>, i: nat)
    requires Carving(mem, avail, regions) && i < |avail|
    ensures i < |mem| && Shrunk(mem[i], avail[i])
  {
  }

  // ---- When regions lie inside the memory ----------------------------------------------------

  ghost predicate AllInside(mem: seq<Range>, rs: seq<Range>) {
    forall k | 0 <= k < |rs| :: InMemory(mem, rs[k])
  }

  ghost predicate InMemory(mem: seq<Range>, r: Range) {
    exists i :: 0 <= i < |mem| && Inside(r, mem[i])
  }

  lemma {:induction false} AllottedInside(mem: seq<Range>, avail: seq<Range>, vms: seq<Request>, k: nat)
    requires InWords(mem) && |avail| == |mem| && forall i | 0 <= i < |mem| :: Shrunk(mem[i], avail[i])
    ensures AllInside(mem, Allotted(avail, vms, k))
    decreases |vms| - k
  {
    hide Minus, Length, MemSize;
    if k < |vms| {
      var i, size := Room(avail, vms[k]), MemSize(vms[k]);
      if k == 0 || i == |avail| {
        AllottedInside(mem, avail, vms, k + 1);
      } else {
        CutAligned(mem[i], avail[i], size);
        assert Inside(Cut(avail, i, size), mem[i]);
        AllottedInside(mem, Left(avail, i, size), vms, k + 1);
      }
    }
  }

  /** The manifest of one secondary VM that asks for the whole physical address space. */
  function Greedy(): seq<Request> {
    [Request(0, None, false), Request(0x1_0000_0000_0000, Some(0), true)]
  }

  predicate Physical(mem: seq<Range>) {
    forall i | 0 <= i < |mem| :: mem[i].begin < 0x1_0000_0000_0000 && mem[i].end < 0x1_0000_0000_0000
  }

  /** A range that ends before it begins looks almost endless, so that request is met from it. */
  lemma GreedyEscapes(mem: seq<Range>)
    requires Physical(mem) && !Proper(mem)
    ensures !AllInside(mem, Allotted(Rounded(mem), Greedy(), 0))
  {
    var size, avail, vms := 0x1_0000_0000_0000, Rounded(mem), Greedy();
    assert MemSize(vms[1]) == size;
    var i := Fit(avail, size, 0);
    var j :| 0 <= j < |mem| && mem[j].begin > Usable(mem[j]).end;
    assert Length(avail[j]) >= size;
    assert i < |avail|;
    var r := Cut(avail, i, size);
    assert r.begin > r.end;
    assert Allotted(avail, vms, 2) == [] && Allotted(Left(avail, i, size), vms, 2) == [];
    assert Allotted(avail, vms, 0) == Allotted(avail, vms, 1) == [r];
    assert !InMemory(mem, Allotted(avail, vms, 0)[0]);
  }

  /** Whatever the manifest, all regions lie inside the memory, exactly if every range reaches its last page
      boundary. */
  lemma InsideIff(mem: seq<Range>)
    requires Physical(mem)
    ensures (forall vms :: AllInside(mem, Allotted(Rounded(mem), vms, 0))) <==> Proper(mem)
  {
    if Proper(mem) {
      forall vms ensures AllInside(mem, Allotted(Rounded(mem), vms, 0)) {
        AllottedInside(mem, Rounded(mem), vms, 0);
      }
    } else {
      GreedyEscapes(mem);
    }
  }

  /** For instance a range inside one page: a VM of one page gets the page below, which is not memory. */
  lemma RangeInsidePage()
    ensures var mem, vms := [Range(0x1800, 0x1900)], [Request(0, None, false), Request(0x1000, Some(0), true)];
            Allotted(Rounded(mem), vms, 0) == [Range(0, 0x1000)] && !InMemory(mem, Range(0, 0x1000))
  {
    var mem, vms := [Range(0x1800, 0x1900)], [Request(0, None, false), Request(0x1000, Some(0), true)];
    var avail := Rounded(mem);
    assert avail == [Range(0x1800, 0x1000)];
    assert MemSize(vms[1]) == 0x1000 && Length(avail[0]) == WORD - 0x800;
    assert Room(avail, vms[1]) == 0 && Cut(avail, 0, 0x1000) == Range(0, 0x1000);
    assert Allotted(Left(avail, 0, 0x1000), vms, 2) == [];
    assert Allotted(avail, vms, 0) == Allotted(avail, vms, 1);
  }

  lemma SameBegins(mem: seq<Range>, avail: seq<Range>, regions: seq<Region>)
    requires Carving(mem, avail, regions)
    ensures |avail| == |mem|
    ensures forall i | 0 <= i < |mem| :: avail[i].begin == mem[i].begin && avail[i].end <= mem[i].end
  {
    forall i | 0 <= i < |mem| ensures avail[i].begin == mem[i].begin && avail[i].end <= mem[i].end {
      assert Shrunk(mem[i], avail[i]);
    }
  }

  /** The reserved ranges cover every carved byte and no byte that remains available. */
  lemma ReservedExactly(mem: seq<Range>, avail: seq<Range>, regions: seq<Region>, x: nat)
    requires Carving(mem, avail, regions) && AllApart(mem)
    ensures |avail| == |mem|
    ensures (exists k :: 0 <= k < |regions| && Has(regions[k].range, x)) ==>
              exists g :: g in Gaps(mem, avail) && Has(g, x)
    ensures (exists i :: 0 <= i < |avail| && Has(avail[i], x)) ==> !exists g :: g in Gaps(mem, avail) && Has(g, x)
  {
    hide Gaps;
    SameBegins(mem, avail, regions);
    GapsAre(mem, avail, x);
    if k :| 0 <= k < |regions| && Has(regions[k].range, x) {
      assert Somewhere(mem, avail, regions[k].range);
      var i: nat :| From(mem, avail, regions[k].range, i);
      assert avail[i].end <= x < mem[i].end;
    }
    if i :| 0 <= i < |avail| && Has(avail[i], x) {
      forall j | 0 <= j < |mem| ensures !(avail[j].end <= x < mem[j].end) {
        if j != i {
          assert Apart(mem[if j < i then j else i], mem[if j < i then i else j]);
          assert !(Has(mem[i], x) && Has(mem[j], x));
        }
      }
    }
  }

  /** All regions lie inside the memory found at boot. */
  lemma InsideMemory(mem: seq<Range>, avail: seq<Range>, regions: seq<Region>, k: nat)
    requires Carving(mem, avail, regions) && k < |regions|
    ensures exists i :: 0 <= i < |mem| && Inside(regions[k].range, mem[i])
  {
    assert Somewhere(mem, avail, regions[k].range);
    var i: nat :| From(mem, avail, regions[k].range, i);
    assert Shrunk(mem[i], avail[i]);
    assert Inside(regions[k].range, mem[i]);
  }
}
