/** Which page states the sharing calls accept and what they turn them into: the transition tables of
    the memory-sharing messages and the checks of the older share call. */
module Transitions {
  import opened Common
  import opened Encoding
  import opened Ownership

  /** The mode bits that make up a page's state. */
  datatype Bits = Bits(invalid: bool, unowned: bool, shared: bool)

  datatype Transition = Transition(from: Bits, to: Bits, from': Bits, to': Bits)

  datatype MemoryShare = Donate | Relinquish | Lend

  /** The access a message asks for on behalf of the recipient. */
  datatype Access = Access(r: bool, w: bool, x: bool)

  const OE := Bits(false, false, false)
  const OS := Bits(false, false, true)
  const ON := Bits(true, false, false)
  const BE := Bits(false, true, false)
  const BS := Bits(false, true, true)
  const NX := Bits(true, true, false)
  const NS := Bits(true, true, true)

  function TableOf(share: MemoryShare): seq<Transition> {
    match share
    case Donate => [Transition(OE, NX, NX, OE), Transition(ON, BE, NX, OE), Transition(OS, BS, NX, OE),
                    Transition(OE, NS, NS, OE)]
    case Relinquish => [Transition(BE, ON, NS, OE), Transition(BS, OS, NS, OE)]
    case Lend => [Transition(OE, NS, OS, BS), Transition(OE, NX, OS, BS)]
  }

  function StateBits(m: Mode): Bits {
    Bits(m.invalid, m.unowned, m.shared)
  }

  function BitsState(b: Bits): PageState {
    StateOf(b.invalid, b.unowned, b.shared)
  }

  function ModeState(m: Mode): PageState {
    StateOf(m.invalid, m.unowned, m.shared)
  }

  function FirstMatch(table: seq<Transition>, from: Bits, to: Bits): Option<Transition> {
    if table == [] then None
    else if table[0].from == from && table[0].to == to then Some(table[0])
    else FirstMatch(table[1..], from, to)
  }

  /** The next modes of sender and recipient. The sender keeps its access rights, the recipient gets
      those that were asked for. */
  function NextState(share: MemoryShare, access: Access, origFrom: Mode, origTo: Mode): Option<(Mode, Mode)> {
    var t := FirstMatch(TableOf(share), StateBits(origFrom), StateBits(origTo));
    if t.None? then None
    else
      Some((origFrom.(invalid := t.value.from'.invalid, unowned := t.value.from'.unowned,
                      shared := t.value.from'.shared),
            Mode(access.r, access.w, access.x, false, t.value.to'.invalid, t.value.to'.unowned, t.value.to'.shared)))
  }

  /** What each message type is for, in terms of page states. */
  predicate Purpose(share: MemoryShare, from: PageState, to: PageState) {
    match share
    case Donate =>
      || (from.OwnerExclusive? && to.NoAccess?)
      || (from.OwnerLent? && to.BorrowerExclusive?)
      || (from.OwnerShared? && to.BorrowerShared?)
    case Relinquish =>
      || (from.BorrowerExclusive? && to.OwnerLent?)
      || (from.BorrowerShared? && to.OwnerShared?)
    case Lend => from.OwnerExclusive? && to.NoAccess?
  }

  /** The tables accept exactly the intended pairs of states, whichever of its two encodings an
      unrelated page has, and only ever make legal transfers. */
  lemma TablesMatchPurpose(share: MemoryShare, access: Access, origFrom: Mode, origTo: Mode)
    ensures NextState(share, access, origFrom, origTo).Some? <==> Purpose(share, ModeState(origFrom), ModeState(origTo))
    ensures NextState(share, access, origFrom, origTo).Some? ==>
            var (from, to) := NextState(share, access, origFrom, origTo).value;
            && LegalRow(Row(ModeState(origFrom), ModeState(origTo), ModeState(from), ModeState(to)))
            && (ModeState(to) == if share.Lend? then BorrowerShared else OwnerExclusive)
            && from == origFrom.(invalid := from.invalid, unowned := from.unowned, shared := from.shared)
            && Access(to.r, to.w, to.x) == access
  {
    hide FirstMatch, LegalRow, Purpose, TableOf, StateOf;
    MatchBits(share, StateBits(origFrom), StateBits(origTo));
  }

  lemma MatchBits(share: MemoryShare, f: Bits, t: Bits)
    ensures FirstMatch(TableOf(share), f, t).Some? <==> Purpose(share, BitsState(f), BitsState(t))
    ensures FirstMatch(TableOf(share), f, t).Some? ==>
            var m := FirstMatch(TableOf(share), f, t).value;
            && LegalRow(Row(BitsState(f), BitsState(t), BitsState(m.from'), BitsState(m.to')))
            && BitsState(m.to') == if share.Lend? then BorrowerShared else OwnerExclusive
  {
    hide FirstMatch, LegalRow, Purpose, StateOf;
    FirstMatchCases(TableOf(share), f, t);
    BitsPurpose(share, f, t);
    RowsLegal();
    AllStates();
  }

  /** The state of every combination of the three bits. */
  lemma AllStates()
    ensures BitsState(OE).OwnerExclusive? && BitsState(OS).OwnerShared? && BitsState(ON).OwnerLent?
    ensures BitsState(BE).BorrowerExclusive? && BitsState(BS).BorrowerShared? && BitsState(NX).NoAccess? &&
            BitsState(NS).NoAccess?
  {
  }

  lemma RowsLegal()
    ensures LegalRow(Row(OwnerExclusive, NoAccess, NoAccess, OwnerExclusive))
    ensures LegalRow(Row(OwnerExclusive, NoAccess, OwnerShared, BorrowerShared))
    ensures LegalRow(Row(OwnerLent, BorrowerExclusive, NoAccess, OwnerExclusive))
    ensures LegalRow(Row(OwnerShared, BorrowerShared, NoAccess, OwnerExclusive))
    ensures LegalRow(Row(BorrowerExclusive, OwnerLent, NoAccess, OwnerExclusive))
    ensures LegalRow(Row(BorrowerShared, OwnerShared, NoAccess, OwnerExclusive))
  {
  }

  lemma BitsPurpose(share: MemoryShare, f: Bits, t: Bits)
    ensures share.Donate? ==>
              (Purpose(share, BitsState(f), BitsState(t)) <==>
               (f == OE && (t == NX || t == NS)) || (f == ON && t == BE) || (f == OS && t == BS))
    ensures share.Relinquish? ==> (Purpose(share, BitsState(f), BitsState(t)) <==>
                                   (f == BE && t == ON) || (f == BS && t == OS))
    ensures share.Lend? ==> (Purpose(share, BitsState(f), BitsState(t)) <==> f == OE && (t == NX || t == NS))
  {
  }

  lemma FirstMatchCases(table: seq<Transition>, f: Bits, t: Bits)
    requires |table| <= 4
    ensures FirstMatch(table, f, t) ==
            if |table| > 0 && table[0].from == f && table[0].to == t then Some(table[0])
            else if |table| > 1 && table[1].from == f && table[1].to == t then Some(table[1])
            else if |table| > 2 && table[2].from == f && table[2].to == t then Some(table[2])
            else if |table| > 3 && table[3].from == f && table[3].to == t then Some(table[3])
            else None
  {
    if |table| > 0 {
      var t1 := table[1..];
      if |t1| > 0 {
        var t2 := t1[1..];
        if |t2| > 0 {
          var t3 := t2[1..];
          if |t3| > 0 { assert t3[1..] == []; }
        }
      }
    }
  }

  // ---- The older share call ------------------------------------------------------------------

  datatype HfShare = Give | LendOut | Share

  const RWX := Mode(true, true, true, false, false, false, false)

  /** The fixed modes that `share_memory` installs. */
  function ShareModes(share: HfShare): (Mode, Mode) {
    match share
    case Give => (Mode(false, false, false, false, true, true, false), RWX)
    case LendOut => (Mode(false, false, false, false, true, false, false), RWX.(unowned := true))
    case Share => (RWX.(shared := true), RWX.(unowned := true, shared := true))
  }

  /** What `share_memory` checks about the modes of the range; it looks at the recipient's mode,
      absent if its pages differ, only when the sender does not own the memory. */
  predicate ShareAllowed(share: HfShare, origFrom: Mode, origTo: Option<Mode>) {
    && !origFrom.invalid
    && (if origFrom.unowned then origTo.Some? && !origTo.value.unowned && share.Give? else !origFrom.shared)
  }

  /** On its own the check is not enough to keep the recipient's rights: the recipient's mode is not
      examined when the sender is the exclusive owner. Only the ownership invariant excludes this. */
  lemma RecipientNotChecked()
    ensures ShareAllowed(Give, RWX, Some(RWX))
    ensures var (f, t) := ShareModes(Give); !LegalRow(Row(ModeState(RWX), ModeState(RWX), ModeState(f), ModeState(t)))
  {
  }
}
