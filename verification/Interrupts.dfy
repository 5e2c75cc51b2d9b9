/** The virtual interrupts of one vCPU: two bit fields and a count of the interrupts that are both enabled
    and pending. */
module Interrupts {
  const NUM_INTIDS: nat := 64
  const REGISTER_BITS: nat := 32
  const INVALID_INTID: nat := 0xffff_ffff

  // ---- Masks ---------------------------------------------------------------------------------

  /** The word with only bit `k` set: 1 shifted left `k` times. */
  function Mask(k: nat): bv32 {
    if k == 0 then 1 else Mask(k - 1) << 1
  }

  /** Exactly one bit is set. */
  predicate Single(m: bv32) {
    m != 0 && m & (m - 1) == 0
  }

  lemma TopMask()
    ensures Mask(31) == 0x8000_0000
  {
    assert Mask(3) == 0x8;
    assert Mask(6) == 0x40;
    assert Mask(9) == 0x200;
    assert Mask(12) == 0x1000;
    assert Mask(15) == 0x8000;
    assert Mask(18) == 0x4_0000;
    assert Mask(21) == 0x20_0000;
    assert Mask(24) == 0x100_0000;
    assert Mask(27) == 0x800_0000;
    assert Mask(30) == 0x4000_0000;
  }

  lemma {:induction false} MaskNotZero(k: nat)
    requires k < 32
    ensures Mask(k) != 0
    decreases 32 - k
  {
    if k == 31 {
      TopMask();
    } else {
      MaskNotZero(k + 1);
    }
  }

  lemma Doubled(m: bv32)
    requires Single(m) && m << 1 != 0
    ensures Single(m << 1) && m < m << 1
  {
  }

  lemma {:induction false} MaskSingle(k: nat)
    requires k < 32
    ensures Single(Mask(k))
  {
    if k > 0 {
      MaskSingle(k - 1);
      MaskNotZero(k);
      Doubled(Mask(k - 1));
    }
  }

  lemma {:induction false} MaskGrows(j: nat, k: nat)
    requires j < k < 32
    ensures Mask(j) < Mask(k)
    decreases k
  {
    MaskSingle(k - 1);
    MaskNotZero(k);
    Doubled(Mask(k - 1));
    if j < k - 1 { MaskGrows(j, k - 1); }
  }

  lemma Disjoint(m: bv32, n: bv32)
    requires Single(m) && Single(n) && m != n
    ensures And(m, n) == 0
  {
  }

  lemma MasksApart(j: nat, k: nat)
    requires j < 32 && k < 32
    ensures Single(Mask(j)) && Single(Mask(k)) && (j == k || And(Mask(j), Mask(k)) == 0)
  {
    hide Mask, Single, And;
    MaskSingle(j);
    MaskSingle(k);
    if j < k { MaskGrows(j, k); } else if k < j { MaskGrows(k, j); }
    if j != k { Disjoint(Mask(j), Mask(k)); }
  }

  // ---- Bits of a word ------------------------------------------------------------------------

  /** Some bit of the mask is set. */
  predicate Hit(w: bv32, m: bv32) {
    w & m != 0
  }

  function Set(w: bv32, m: bv32): bv32 {
    w | m
  }

  function Clear(w: bv32, m: bv32): bv32 {
    w & !m
  }

  function And(x: bv32, y: bv32): bv32 {
    x & y
  }

  lemma KeptBySet(w: bv32, m: bv32, n: bv32, s: bv32)
    requires And(m, n) == 0 && s == Set(w, m)
    ensures And(s, n) == And(w, n)
  {
  }

  lemma KeptByClear(w: bv32, m: bv32, n: bv32, c: bv32)
    requires And(m, n) == 0 && c == Clear(w, m)
    ensures And(c, n) == And(w, n)
  {
  }

  lemma AllOrNothing(x: bv32, m: bv32)
    requires Single(m)
    ensures x & m == 0 || x & m == m
  {
  }

  lemma Shared(x: bv32, y: bv32, m: bv32)
    ensures (x & y) & m == (x & m) & (y & m)
    ensures (x & !y) & m == (x & m) & !(y & m)
  {
  }

  lemma HitSame(w: bv32, x: bv32, n: bv32)
    requires And(x, n) == And(w, n)
    ensures Hit(x, n) == Hit(w, n)
  {
  }

  lemma HitOther(w: bv32, m: bv32, n: bv32)
    requires And(m, n) == 0
    ensures Hit(Set(w, m), n) == Hit(w, n)
    ensures Hit(Clear(w, m), n) == Hit(w, n)
  {
    hide Hit, And, Set, Clear;
    var s, c := Set(w, m), Clear(w, m);
    KeptBySet(w, m, n, s);
    KeptByClear(w, m, n, c);
    HitSame(w, s, n);
    HitSame(w, c, n);
  }

  lemma HitOwn(w: bv32, m: bv32)
    requires Single(m)
    ensures Hit(Set(w, m), m) && !Hit(Clear(w, m), m)
  {
    assert (w | m) & m == m;
    assert (w & !m) & m == 0;
  }

  lemma HitBoth(x: bv32, y: bv32, m: bv32)
    requires Single(m)
    ensures Hit(And(x, y), m) <==> Hit(x, m) && Hit(y, m)
  {
    AllOrNothing(x, m);
    AllOrNothing(y, m);
    Shared(x, y, m);
  }

  lemma HitNot(x: bv32, y: bv32, m: bv32)
    requires Single(m)
    ensures Hit(Clear(x, y), m) <==> Hit(x, m) && !Hit(y, m)
  {
    AllOrNothing(x, m);
    AllOrNothing(y, m);
    Shared(x, y, m);
  }

  lemma HitNothing(m: bv32)
    ensures !Hit(0, m)
  {
  }

  predicate BitOf(w: bv32, k: nat)
    requires k < 32
  {
    Hit(w, Mask(k))
  }

  lemma SetWordBit(w: bv32, k: nat, j: nat, b: bool)
    requires j < 32 && k < 32
    ensures BitOf(if b then Set(w, Mask(k)) else Clear(w, Mask(k)), j) == if j == k then b else BitOf(w, j)
  {
    hide Mask, Hit, Set, Clear, And, Single;
    MasksApart(k, j);
    if j == k { HitOwn(w, Mask(k)); } else { HitOther(w, Mask(k), Mask(j)); }
  }

  lemma AndBit(x: bv32, y: bv32, k: nat)
    requires k < 32
    ensures BitOf(And(x, y), k) <==> BitOf(x, k) && BitOf(y, k)
    ensures BitOf(Clear(x, y), k) <==> BitOf(x, k) && !BitOf(y, k)
  {
    hide Mask, Hit, And, Clear, Single;
    MaskSingle(k);
    HitBoth(x, y, Mask(k));
    HitNot(x, y, Mask(k));
  }

  lemma ZeroBit(k: nat)
    requires k < 32
    ensures !BitOf(0, k)
  {
    hide Mask, Hit;
    HitNothing(Mask(k));
  }

  /** No bit below the one of a mask is set. */
  predicate ZeroBelow(w: bv32, m: bv32) {
    w & (m - 1) == 0
  }

  lemma ZeroNext(w: bv32, m: bv32)
    requires Single(m) && ZeroBelow(w, m) && !Hit(w, m) && m << 1 != 0
    ensures ZeroBelow(w, m << 1)
  {
  }

  lemma ZeroDone(w: bv32, m: bv32)
    requires ZeroBelow(w, m) && m == 0x8000_0000 && !Hit(w, m)
    ensures w == 0
  {
  }

  lemma ZeroStart(w: bv32)
    ensures ZeroBelow(w, Mask(0))
  {
  }

  lemma ZeroStep(w: bv32, k: nat)
    requires k < 31 && ZeroBelow(w, Mask(k)) && !BitOf(w, k)
    ensures ZeroBelow(w, Mask(k + 1))
  {
    hide ZeroBelow, Hit, Single;
    MaskSingle(k);
    MaskNotZero(k + 1);
    ZeroNext(w, Mask(k));
  }

  lemma ZeroEnd(w: bv32)
    requires ZeroBelow(w, Mask(31)) && !BitOf(w, 31)
    ensures w == 0
  {
    hide ZeroBelow, Hit, Mask;
    TopMask();
    ZeroDone(w, Mask(31));
  }

  /** The `trailing_zeros` of a non-zero word is the position of its lowest bit. */
  method TrailingZeros(w: bv32) returns (k: nat)
    requires w != 0
    ensures k < 32 && BitOf(w, k) && forall j | 0 <= j < k :: !BitOf(w, j)
  {
    hide BitOf, ZeroBelow, Mask;
    k := 0;
    ZeroStart(w);
    while !BitOf(w, k)
      invariant k < 32 && ZeroBelow(w, Mask(k)) && forall j | 0 <= j < k :: !BitOf(w, j)
      decreases 32 - k
    {
      if k == 31 { ZeroEnd(w); }
      ZeroStep(w, k);
      k := k + 1;
    }
  }

  // ---- Bit fields ----------------------------------------------------------------------------

  type Fields = seq<bv32>

  predicate WFFields(f: Fields) {
    |f| == 2
  }

  predicate Bit(f: Fields, id: nat)
    requires WFFields(f) && id < NUM_INTIDS
  {
    BitOf(f[id / REGISTER_BITS], id % REGISTER_BITS)
  }

  /** The register of an interrupt id with its mask set or cleared. */
  function SetBit(f: Fields, id: nat, b: bool): (f': Fields)
    requires WFFields(f) && id < NUM_INTIDS
    ensures WFFields(f')
  {
    var i, m := id / REGISTER_BITS, Mask(id % REGISTER_BITS);
    f[i := if b then Set(f[i], m) else Clear(f[i], m)]
  }

  /** The interrupt ids whose bit is set. */
  ghost function Ids(f: Fields): set<nat>
    requires WFFields(f)
  {
    set i: nat | i < NUM_INTIDS && Bit(f, i)
  }

  lemma SetOne(f: Fields, id: nat, b: bool, i: nat)
    requires WFFields(f) && id < NUM_INTIDS && i < NUM_INTIDS
    ensures Bit(SetBit(f, id, b), i) == if i == id then b else Bit(f, i)
  {
    hide Mask, BitOf, Set, Clear;
    if i / REGISTER_BITS == id / REGISTER_BITS {
      var j := id / REGISTER_BITS;
      SetWordBit(f[j], id % REGISTER_BITS, i % REGISTER_BITS, b);
    }
  }

  lemma SetId(f: Fields, id: nat, b: bool)
    requires WFFields(f) && id < NUM_INTIDS
    ensures Ids(SetBit(f, id, b)) == if b then Ids(f) + {id} else Ids(f) - {id}
  {
    hide SetBit, Bit;
    forall i: nat | i < NUM_INTIDS ensures Bit(SetBit(f, id, b), i) == if i == id then b else Bit(f, i) {
      SetOne(f, id, b, i);
    }
  }

  lemma Grows(x: set<nat>, y: set<nat>, id: nat)
    ensures |x * (y + {id})| == |x * y| + if id in x && id !in y then 1 else 0
    ensures (y + {id}) * x == x * (y + {id})
  {
    assert x * (y + {id}) == if id in x && id !in y then x * y + {id} else x * y;
  }

  lemma Shrinks(x: set<nat>, y: set<nat>, id: nat)
    ensures |x * (y - {id})| == |x * y| - if id in x && id in y then 1 else 0
    ensures (y - {id}) * x == x * (y - {id})
  {
    assert x * (y - {id}) == if id in x && id in y then x * y - {id} else x * y;
  }

  /** What the two masked tests of the code mean for the sets of ids. */
  lemma FieldTests(x: Fields, y: Fields, id: nat, i: nat, m: bv32)
    requires WFFields(x) && WFFields(y) && id < NUM_INTIDS && i == id / REGISTER_BITS && m == Mask(id % REGISTER_BITS)
    ensures Hit(And(x[i], y[i]), m) <==> id in Ids(x) && id in Ids(y)
    ensures Hit(Clear(x[i], y[i]), m) <==> id in Ids(x) && id !in Ids(y)
  {
    hide Mask, Hit, And, Clear;
    AndBit(x[i], y[i], id % REGISTER_BITS);
  }

  lemma NoIds()
    ensures Ids([0, 0]) == {}
  {
    hide BitOf;
    forall i: nat | i < NUM_INTIDS ensures !Bit([0, 0], i) {
      ZeroBit(i % REGISTER_BITS);
    }
  }

  /** How enabling or disabling an id changes the number of ids in both sets. */
  lemma CountAfter(e: Fields, p: Fields, id: nat, b: bool)
    requires WFFields(e) && WFFields(p) && id < NUM_INTIDS
    ensures b ==>
      |Ids(SetBit(e, id, true)) * Ids(p)| == |Ids(e) * Ids(p)| + if id in Ids(p) && id !in Ids(e) then 1 else 0
    ensures !b ==>
      |Ids(SetBit(e, id, false)) * Ids(p)| == |Ids(e) * Ids(p)| - if id in Ids(p) && id in Ids(e) then 1 else 0
  {
    hide SetBit, Ids;
    SetId(e, id, b);
    assert Ids(p) * Ids(e) == Ids(e) * Ids(p);
    if b { Grows(Ids(p), Ids(e), id); } else { Shrinks(Ids(p), Ids(e), id); }
  }

  /** No interrupt below `n` is both enabled and pending. */
  ghost predicate NoneBelow(e: Fields, p: Fields, n: nat)
    requires WFFields(e) && WFFields(p)
  {
    forall j | j in Ids(e) * Ids(p) :: n <= j
  }

  /** The lowest common bit of word `i` extends what is known about the words before it. */
  lemma WordScanned(e: Fields, p: Fields, i: nat, w: bv32, bit: nat)
    requires WFFields(e) && WFFields(p) && i < 2 && w == And(e[i], p[i]) && NoneBelow(e, p, 32 * i)
    requires bit < 32 && BitOf(w, bit) && forall j | 0 <= j < bit :: !BitOf(w, j)
    ensures 32 * i + bit in Ids(e) * Ids(p) && NoneBelow(e, p, 32 * i + bit)
  {
    hide BitOf, And, Clear;
    forall j | j in Ids(e) * Ids(p) ensures 32 * i + bit <= j {
      if j / 32 == i { AndBit(e[i], p[i], j % 32); }
    }
    AndBit(e[i], p[i], bit);
    assert (32 * i + bit) / 32 == i && (32 * i + bit) % 32 == bit;
  }

  lemma WordEmpty(e: Fields, p: Fields, i: nat)
    requires WFFields(e) && WFFields(p) && i < 2 && NoneBelow(e, p, 32 * i) && And(e[i], p[i]) == 0
    ensures NoneBelow(e, p, 32 * i + 32)
  {
    hide BitOf, And, Clear;
    forall j | j in Ids(e) * Ids(p) ensures 32 * i + 32 <= j {
      ZeroBit(j % 32);
      AndBit(e[i], p[i], j % 32);
    }
  }

  lemma NoneAtAll(e: Fields, p: Fields)
    requires WFFields(e) && WFFields(p) && NoneBelow(e, p, NUM_INTIDS)
    ensures Ids(e) * Ids(p) == {}
  {
    assert forall j | j in Ids(e) * Ids(p) :: false;
  }

  class Interrupts {
    var enabled: Fields
    var pending: Fields
    var count: nat

    /** The interrupts that are both enabled and pending. */
    ghost function Active(): set<nat>
      requires WFFields(enabled) && WFFields(pending)
      reads this
    {
      Ids(enabled) * Ids(pending)
    }

    ghost predicate Valid()
      reads this
    {
      WFFields(enabled) && WFFields(pending) && count == |Active()|
    }

    constructor ()
      ensures Valid() && Ids(enabled) == {} && Ids(pending) == {}
    {
      enabled, pending, count := [0, 0], [0, 0], 0;
      new;
      NoIds();
    }

    /** Makes an interrupt pending; reports whether the vCPU has to be scheduled for it. */
    method Inject(id: nat) returns (ok: bool)
      requires Valid()
      modifies `pending, `count
      ensures Valid()
      ensures id >= NUM_INTIDS ==> pending == old(pending)
      ensures id < NUM_INTIDS ==> Ids(pending) == old(Ids(pending)) + {id}
      ensures ok <==> old(Active()) == {} && Active() != {}
    {
      hide SetBit, Ids, Mask, Hit, And, Clear;
      if id >= NUM_INTIDS {
        return false;
      }
      var i, mask := id / REGISTER_BITS, Mask(id % REGISTER_BITS);
      FieldTests(enabled, pending, id, i, mask);
      SetId(pending, id, true);
      Grows(Ids(enabled), Ids(pending), id);
      var was := pending[i];
      pending := SetBit(pending, id, true);
      if !Hit(Clear(enabled[i], was), mask) {
        return false;
      }
      count := count + 1;
      ok := count == 1;
    }

    /** Enables or disables an interrupt. */
    method Enable(id: nat, enable: bool) returns (ok: bool)
      requires Valid()
      modifies `enabled, `count
      ensures Valid() && (ok <==> id < NUM_INTIDS)
      ensures !ok ==> enabled == old(enabled)
      ensures ok ==> Ids(enabled) == if enable then old(Ids(enabled)) + {id} else old(Ids(enabled)) - {id}
    {
      hide SetBit, Ids, Mask, Hit, And, Clear;
      if id >= NUM_INTIDS {
        return false;
      }
      var i, mask := id / REGISTER_BITS, Mask(id % REGISTER_BITS);
      FieldTests(pending, enabled, id, i, mask);
      SetId(enabled, id, enable);
      CountAfter(enabled, pending, id, enable);
      if enable {
        if Hit(Clear(pending[i], enabled[i]), mask) {
          count := count + 1;
        }
      } else {
        if Hit(And(pending[i], enabled[i]), mask) {
          count := count - 1;
        }
      }
      enabled := SetBit(enabled, id, enable);
      ok := true;
    }

    predicate IsInterrupted()
      reads this
    {
      count > 0
    }

    /** The count answers whether any interrupt is both enabled and pending. */
    lemma InterruptedIff()
      requires Valid()
      ensures IsInterrupted() <==> exists id :: id in Active()
    {
      if count > 0 { var id :| id in Active(); }
    }

    /** Takes the smallest interrupt that is both enabled and pending. */
    method Get() returns (id: nat)
      requires Valid()
      modifies `pending, `count
      ensures Valid()
      ensures old(Active()) == {} ==> id == INVALID_INTID && pending == old(pending)
      ensures old(Active()) != {} ==> id in old(Active()) && forall j | j in old(Active()) :: id <= j
      ensures old(Active()) != {} ==> Ids(pending) == old(Ids(pending)) - {id}
    {
      hide SetBit, Ids, BitOf, And, NoneBelow;
      var i := 0;
      Start();
      while i < NUM_INTIDS / REGISTER_BITS
        invariant i <= 2 && unchanged(this) && NoneBelow(enabled, pending, REGISTER_BITS * i)
      {
        var both := And(enabled[i], pending[i]);
        if both != 0 {
          var bit := TrailingZeros(both);
          WordScanned(enabled, pending, i, both, bit);
          id := i * REGISTER_BITS + bit;
          Smallest(id);
          SetId(pending, id, false);
          Shrinks(Ids(enabled), Ids(pending), id);
          pending := SetBit(pending, id, false);
          count := count - 1;
          return;
        }
        WordEmpty(enabled, pending, i);
        i := i + 1;
      }
      NoneAtAll(enabled, pending);
      id := INVALID_INTID;
    }

    lemma Start()
      requires Valid()
      ensures NoneBelow(enabled, pending, 0)
    {
    }

    lemma Smallest(id: nat)
      requires Valid() && id in Active() && NoneBelow(enabled, pending, id)
      ensures id < NUM_INTIDS && count > 0 && forall j | j in Active() :: id <= j
    {
    }
  }
}
