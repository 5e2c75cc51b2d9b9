/** Inserting memory reservations into a flattened device tree in place. */
module FdtReserve {
  import opened FdtFormat

  // Offsets of the header fields.
  const TOTAL: nat := 4
  const OFF_STRUCT: nat := 8
  const OFF_STRINGS: nat := 12
  const OFF_RSVMAP: nat := 16
  const SIZE_STRINGS: nat := 32
  const SIZE_STRUCT: nat := 36
  const HEADER: nat := 40
  const ENTRY: nat := 16

  function Field(d: seq<byte>, f: nat): nat
    requires |d| >= HEADER && f <= SIZE_STRUCT
  {
    Word(d, f)
  }

  /** The reservation list comes after the header and before the other blocks, all inside the total size
      (section 5.1 of the Devicetree Specification). */
  predicate Laid(d: seq<byte>) {
    && |d| >= HEADER && Field(d, OFF_RSVMAP) >= HEADER
    && Field(d, OFF_RSVMAP) <= Field(d, OFF_STRUCT) && Field(d, OFF_STRUCT) + Field(d, SIZE_STRUCT) <= Field(d, TOTAL)
    && Field(d, OFF_RSVMAP) <= Field(d, OFF_STRINGS)
    && Field(d, OFF_STRINGS) + Field(d, SIZE_STRINGS) <= Field(d, TOTAL)
    && Field(d, TOTAL) <= |d|
  }

  function StructBlock(d: seq<byte>): seq<byte>
    requires Laid(d)
  {
    d[Field(d, OFF_STRUCT)..Field(d, OFF_STRUCT) + Field(d, SIZE_STRUCT)]
  }

  function StringsBlock(d: seq<byte>): seq<byte>
    requires Laid(d)
  {
    d[Field(d, OFF_STRINGS)..Field(d, OFF_STRINGS) + Field(d, SIZE_STRINGS)]
  }

  /** An address and a length. */
  datatype Entry = Entry(address: nat, size: nat)

  function Long(d: seq<byte>, i: nat): nat
    requires i + 8 <= |d|
  {
    Word(d, i) * 0x1_0000_0000 + Word(d, i + 4)
  }

  function EntryAt(d: seq<byte>, i: nat): Entry
    requires i + ENTRY <= |d|
  {
    Entry(Long(d, i), Long(d, i + 8))
  }

  /** The reservations from `i` on, up to the one that is all zero. */
  function EntriesFrom(d: seq<byte>, i: nat, end: nat): seq<Entry>
    requires end <= |d|
    decreases end - i
  {
    if i + ENTRY > end || EntryAt(d, i) == Entry(0, 0) then []
    else [EntryAt(d, i)] + EntriesFrom(d, i + ENTRY, end)
  }

  function Reservations(d: seq<byte>): seq<Entry>
    requires Laid(d)
  {
    EntriesFrom(d, Field(d, OFF_RSVMAP), Field(d, TOTAL))
  }

  // ---- What one insertion does ---------------------------------------------------------------

  /** The bytes from the reservation list on have moved up by one entry, and the header says so. */
  predicate Moved(d: seq<byte>, d': seq<byte>) {
    && Laid(d) && |d'| == |d|
    && Field(d', OFF_RSVMAP) == Field(d, OFF_RSVMAP)
    && Field(d', SIZE_STRUCT) == Field(d, SIZE_STRUCT) && Field(d', SIZE_STRINGS) == Field(d, SIZE_STRINGS)
    && Field(d', TOTAL) == Field(d, TOTAL) + ENTRY <= |d|
    && Field(d', OFF_STRUCT) == Field(d, OFF_STRUCT) + ENTRY && Field(d', OFF_STRINGS) == Field(d, OFF_STRINGS) + ENTRY
    && (forall k | Field(d, OFF_RSVMAP) <= k < Field(d, TOTAL) :: d'[k + ENTRY] == d[k])
  }

  lemma BlocksMove(d: seq<byte>, d': seq<byte>)
    requires Moved(d, d')
    ensures Laid(d') && StructBlock(d') == StructBlock(d) && StringsBlock(d') == StringsBlock(d)
  {
    hide Word;
    SliceMoves(d, d', Field(d, OFF_STRUCT), Field(d, SIZE_STRUCT));
    SliceMoves(d, d', Field(d, OFF_STRINGS), Field(d, SIZE_STRINGS));
  }

  lemma SliceMoves(d: seq<byte>, d': seq<byte>, i: nat, n: nat)
    requires Moved(d, d') && Field(d, OFF_RSVMAP) <= i && i + n <= Field(d, TOTAL)
    ensures d'[i + ENTRY..i + ENTRY + n] == d[i..i + n]
  {
    hide Word;
    var x, y := d[i..i + n], d'[i + ENTRY..i + ENTRY + n];
    forall k | 0 <= k < n ensures y[k] == x[k] {
      assert d'[i + k + ENTRY] == d[i + k];
    }
  }

  lemma EntryMoves(d: seq<byte>, d': seq<byte>, i: nat)
    requires Moved(d, d') && Field(d, OFF_RSVMAP) <= i && i + ENTRY <= Field(d, TOTAL)
    ensures EntryAt(d', i + ENTRY) == EntryAt(d, i)
  {
    WordMoves(d, d', i);
    WordMoves(d, d', i + 4);
    WordMoves(d, d', i + 8);
    WordMoves(d, d', i + 12);
  }

  lemma WordMoves(d: seq<byte>, d': seq<byte>, i: nat)
    requires Moved(d, d') && Field(d, OFF_RSVMAP) <= i && i + 4 <= Field(d, TOTAL)
    ensures Word(d', i + ENTRY) == Word(d, i)
  {
    var j := i + ENTRY;
    assert d'[j] == d[i] && d'[(i + 1) + ENTRY] == d[i + 1] && d'[(i + 2) + ENTRY] == d[i + 2] &&
           d'[(i + 3) + ENTRY] == d[i + 3];
  }

  lemma {:induction false} EntriesMove(d: seq<byte>, d': seq<byte>, i: nat)
    requires Moved(d, d') && Field(d, OFF_RSVMAP) <= i
    ensures EntriesFrom(d', i + ENTRY, Field(d', TOTAL)) == EntriesFrom(d, i, Field(d, TOTAL))
    decreases Field(d, TOTAL) - i
  {
    hide Word, EntryAt;
    if i + ENTRY <= Field(d, TOTAL) {
      EntryMoves(d, d', i);
      EntriesMove(d, d', i + ENTRY);
    }
  }

  /** The new entry comes first; an all-zero one would end the list. */
  lemma EntryPrepended(d: seq<byte>, d': seq<byte>, e: Entry)
    requires Moved(d, d') && EntryAt(d', Field(d', OFF_RSVMAP)) == e
    ensures Laid(d') && Reservations(d') == if e == Entry(0, 0) then [] else [e] + Reservations(d)
  {
    hide Word, EntryAt;
    BlocksMove(d, d');
    EntriesMove(d, d', Field(d, OFF_RSVMAP));
  }

  // ---- In place ------------------------------------------------------------------------------

  method WriteWord(a: array<byte>, i: nat, v: nat)
    requires i + 4 <= a.Length && v < 0x1_0000_0000
    modifies a
    ensures Word(a[..], i) == v
    ensures forall k | 0 <= k < a.Length && !(i <= k < i + 4) :: a[k] == old(a[k])
  {
    var w := WordBytes(v);
    a[i], a[i + 1], a[i + 2], a[i + 3] := w[0], w[1], w[2], w[3];
  }

  /** Moves `size` bytes up by one entry, starting at the top because the areas overlap. */
  method MoveUp(a: array<byte>, begin: nat, size: nat)
    requires begin + size + ENTRY <= a.Length
    modifies a
    ensures forall k | begin <= k < begin + size :: a[k + ENTRY] == old(a[k])
    ensures forall k | 0 <= k < begin :: a[k] == old(a[k])
  {
    var n: nat := size;
    while n > 0
      invariant n <= size
      invariant forall k | begin + n <= k < begin + size :: a[k + ENTRY] == old(a[k])
      invariant forall k | 0 <= k < begin + n :: a[k] == old(a[k])
    {
      n := n - 1;
      a[begin + n + ENTRY] := a[begin + n];
    }
  }

  lemma SameWord(d: seq<byte>, d': seq<byte>, i: nat)
    requires i + 4 <= |d| && |d'| == |d| && forall k | i <= k < i + 4 :: d'[k] == d[k]
    ensures Word(d', i) == Word(d, i)
  {
  }

  lemma SameHeader(d: seq<byte>, d': seq<byte>)
    requires |d| >= HEADER && |d'| == |d| && forall k | 0 <= k < HEADER :: d'[k] == d[k]
    ensures Field(d', TOTAL) == Field(d, TOTAL) && Field(d', OFF_STRUCT) == Field(d, OFF_STRUCT)
    ensures Field(d', OFF_STRINGS) == Field(d, OFF_STRINGS) && Field(d', OFF_RSVMAP) == Field(d, OFF_RSVMAP)
    ensures Field(d', SIZE_STRUCT) == Field(d, SIZE_STRUCT) && Field(d', SIZE_STRINGS) == Field(d, SIZE_STRINGS)
  {
    hide Word;
    SameWord(d, d', TOTAL);
    SameWord(d, d', OFF_STRUCT);
    SameWord(d, d', OFF_STRINGS);
    SameWord(d, d', OFF_RSVMAP);
    SameWord(d, d', SIZE_STRUCT);
    SameWord(d, d', SIZE_STRINGS);
  }

  /** Writes the three header fields that change. */
  method UpdateHeader(a: array<byte>)
    requires Laid(a[..]) && Field(a[..], TOTAL) + ENTRY < 0x1_0000_0000
    modifies a
    ensures forall k | HEADER <= k < a.Length :: a[k] == old(a[k])
    ensures Field(a[..], TOTAL) == old(Field(a[..], TOTAL)) + ENTRY
    ensures Field(a[..], OFF_STRUCT) == old(Field(a[..], OFF_STRUCT)) + ENTRY
    ensures Field(a[..], OFF_STRINGS) == old(Field(a[..], OFF_STRINGS)) + ENTRY
    ensures Field(a[..], OFF_RSVMAP) == old(Field(a[..], OFF_RSVMAP))
    ensures Field(a[..], SIZE_STRUCT) == old(Field(a[..], SIZE_STRUCT)) &&
            Field(a[..], SIZE_STRINGS) == old(Field(a[..], SIZE_STRINGS))
  {
    hide Word;
    ghost var d := a[..];
    var total, struct0, strings := Field(a[..], TOTAL), Field(a[..], OFF_STRUCT), Field(a[..], OFF_STRINGS);
    WriteWord(a, TOTAL, total + ENTRY);
    ghost var d1 := a[..];
    WriteWord(a, OFF_STRUCT, struct0 + ENTRY);
    ghost var d2 := a[..];
    WriteWord(a, OFF_STRINGS, strings + ENTRY);
    SameWord(d1, a[..], TOTAL);
    SameWord(d2, a[..], OFF_STRUCT);
    SameWord(d, a[..], OFF_RSVMAP);
    SameWord(d, a[..], SIZE_STRUCT);
    SameWord(d, a[..], SIZE_STRINGS);
  }

  method WriteEntry(a: array<byte>, i: nat, e: Entry)
    requires i + ENTRY <= a.Length && e.address < 0x1_0000_0000_0000_0000 && e.size < 0x1_0000_0000_0000_0000
    modifies a
    ensures EntryAt(a[..], i) == e
    ensures forall k | 0 <= k < a.Length && !(i <= k < i + ENTRY) :: a[k] == old(a[k])
  {
    hide Word;
    WriteWord(a, i, e.address / 0x1_0000_0000);
    ghost var d1 := a[..];
    WriteWord(a, i + 4, e.address % 0x1_0000_0000);
    ghost var d2 := a[..];
    WriteWord(a, i + 8, e.size / 0x1_0000_0000);
    ghost var d3 := a[..];
    WriteWord(a, i + 12, e.size % 0x1_0000_0000);
    SameWord(d1, a[..], i);
    SameWord(d2, a[..], i + 4);
    SameWord(d3, a[..], i + 8);
  }

  /** Adds a reservation in front of the others. The buffer has room for one more entry. */
  method AddMemReservation(a: array<byte>, e: Entry)
    requires Laid(a[..]) && Field(a[..], TOTAL) + ENTRY <= a.Length && Field(a[..], TOTAL) + ENTRY < 0x1_0000_0000
    requires e.address < 0x1_0000_0000_0000_0000 && e.size < 0x1_0000_0000_0000_0000
    modifies a
    ensures Laid(a[..]) && Field(a[..], TOTAL) == old(Field(a[..], TOTAL)) + ENTRY
    ensures StructBlock(a[..]) == old(StructBlock(a[..])) && StringsBlock(a[..]) == old(StringsBlock(a[..]))
    ensures Reservations(a[..]) == if e == Entry(0, 0) then [] else [e] + old(Reservations(a[..]))
  {
    hide Word, EntryAt, Reservations, StructBlock, StringsBlock, Moved;
    ghost var d := a[..];
    var begin := Field(a[..], OFF_RSVMAP);
    var size := Field(a[..], TOTAL) - begin;
    UpdateHeader(a);
    ghost var d1 := a[..];
    MoveUp(a, begin, size);
    ghost var d2 := a[..];
    WriteEntry(a, begin, e);
    Inserted(d, d1, d2, a[..]);
    BlocksMove(d, a[..]);
    EntryPrepended(d, a[..], e);
  }

  lemma Inserted(d: seq<byte>, d1: seq<byte>, d2: seq<byte>, d3: seq<byte>)
    requires Laid(d) && Field(d, TOTAL) + ENTRY <= |d| && |d1| == |d| && |d2| == |d| && |d3| == |d|
    requires forall k | HEADER <= k < |d| :: d1[k] == d[k]
    requires Field(d1, TOTAL) == Field(d, TOTAL) + ENTRY && Field(d1, OFF_STRUCT) == Field(d, OFF_STRUCT) + ENTRY
    requires Field(d1, OFF_STRINGS) == Field(d, OFF_STRINGS) + ENTRY && Field(d1, OFF_RSVMAP) == Field(d, OFF_RSVMAP)
    requires Field(d1, SIZE_STRUCT) == Field(d, SIZE_STRUCT) && Field(d1, SIZE_STRINGS) == Field(d, SIZE_STRINGS)
    requires forall k | Field(d, OFF_RSVMAP) <= k < Field(d, TOTAL) :: d2[k + ENTRY] == d1[k]
    requires forall k | 0 <= k < Field(d, OFF_RSVMAP) :: d2[k] == d1[k]
    requires forall k | 0 <= k < |d| && !(Field(d, OFF_RSVMAP) <= k < Field(d, OFF_RSVMAP) + ENTRY) :: d3[k] == d2[k]
    ensures Moved(d, d3) && Field(d3, OFF_RSVMAP) == Field(d, OFF_RSVMAP) && Field(d3, TOTAL) == Field(d, TOTAL) + ENTRY
  {
    hide Word;
    SameHeader(d1, d3);
  }

  // ---- Any number of insertions --------------------------------------------------------------

  function Reversed(es: seq<Entry>): seq<Entry> {
    if es == [] then [] else Reversed(es[1..]) + [es[0]]
  }

  lemma {:induction false} ReversedStep(es: seq<Entry>, i: nat)
    requires i < |es|
    ensures Reversed(es[..i + 1]) == [es[i]] + Reversed(es[..i])
    decreases i
  {
    var s := es[..i + 1];
    if i == 0 {
      assert s == [es[0]] && Reversed(s[1..]) == [];
    } else {
      ReversedStep(es[1..], i - 1);
      assert s[1..] == es[1..][..i] && es[..i][1..] == es[1..][..i - 1];
    }
  }

  lemma ReversedNone(es: seq<Entry>, more: seq<Entry>)
    ensures Reversed(es[..0]) + more == more
  {
  }

  lemma ReversedNext(es: seq<Entry>, i: nat, more: seq<Entry>)
    requires i < |es|
    ensures es[i] in es && Reversed(es[..i + 1]) + more == [es[i]] + (Reversed(es[..i]) + more)
  {
    ReversedStep(es, i);
  }

  /** Any number of reservations leaves the tree and its strings as they were, so everything read from it
      later is unchanged, and puts the new entries in front, the last one first. */
  method AddAll(a: array<byte>, es: seq<Entry>)
    requires Laid(a[..]) && Field(a[..], TOTAL) + ENTRY * |es| <= a.Length && a.Length < 0x1_0000_0000
    requires forall e | e in es ::
               e.address < 0x1_0000_0000_0000_0000 && e.size < 0x1_0000_0000_0000_0000 && e != Entry(0, 0)
    modifies a
    ensures Laid(a[..])
    ensures StructBlock(a[..]) == old(StructBlock(a[..])) && StringsBlock(a[..]) == old(StringsBlock(a[..]))
    ensures Reservations(a[..]) == Reversed(es) + old(Reservations(a[..]))
  {
    hide Word, Field, Reservations, StructBlock, StringsBlock, Reversed;
    var i := 0;
    ReversedNone(es, old(Reservations(a[..])));
    while i < |es|
      invariant i <= |es| && Laid(a[..]) && Field(a[..], TOTAL) == old(Field(a[..], TOTAL)) + ENTRY * i
      invariant StructBlock(a[..]) == old(StructBlock(a[..])) && StringsBlock(a[..]) == old(StringsBlock(a[..]))
      invariant Reservations(a[..]) == Reversed(es[..i]) + old(Reservations(a[..]))
    {
      ReversedNext(es, i, old(Reservations(a[..])));
      AddMemReservation(a, es[i]);
      i := i + 1;
    }
    assert es[..i] == es;
  }
}
