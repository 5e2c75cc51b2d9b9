/** The device-tree tokenizer and the node walkers of `fdt.rs`. The structure block starts at an aligned
    address and is a whole number of words long, as the specification asks. */
module Fdt {
  import opened Common
  import opened FdtFormat

  /** The name that starts at `off` in the strings block. */
  function StringFrom(strs: seq<byte>, off: nat): Option<seq<byte>>
    decreases |strs| - off
  {
    if off >= |strs| then None
    else if strs[off] == 0 then Some([])
    else
      var rest := StringFrom(strs, off + 1);
      if rest.None? then None else Some([strs[off]] + rest.value)
  }

  /** The next word, after NOPs, is a token the reader knows; reading any other word panics. */
  predicate Sane(d: seq<byte>, i: nat) {
    var p := SkipNops(d, i);
    p + 4 <= |d| ==> KnownToken(Word(d, p))
  }

  /** The names of all properties exist in the strings block. */
  predicate Named(strs: seq<byte>, ps: seq<Prop>) {
    forall p | p in ps :: StringFrom(strs, p.nameoff).Some?
  }

  ghost predicate NamedTree(strs: seq<byte>, t: Tree)
    decreases t
  {
    Named(strs, t.props) && forall k | k in t.kids :: NamedTree(strs, k)
  }

  lemma StringFound(d: seq<byte>, i: nat, nul: nat)
    requires i <= nul < |d| && d[nul] == 0 && (forall k | i <= k < nul :: d[k] != 0) && |d| % 4 == 0
    ensures StringAt(d, i, AlignUp(nul + 1), d[i..nul + 1][..nul - i]) && d[i..nul + 1][nul - i] == 0
  {
    assert d[i..nul + 1][..nul - i] == d[i..nul];
  }

  // ---- What comes next is determined ---------------------------------------------------------

  lemma OneProp(d: seq<byte>, i: nat, j: nat, p: Prop, j': nat, p': Prop)
    requires PropAt(d, i, j, p) && PropAt(d, i, j', p')
    ensures j == j' && p == p'
  {
    hide Word, SkipNops, AlignUp;
  }

  lemma OneString(d: seq<byte>, i: nat, j: nat, s: seq<byte>, j': nat, s': seq<byte>)
    requires StringAt(d, i, j, s) && StringAt(d, i, j', s')
    ensures j == j' && s == s'
  {
    hide AlignUp;
    if |s| < |s'| { StringByte(d, i, j', s', |s|); }
    if |s'| < |s| { StringByte(d, i, j, s, |s'|); }
  }

  lemma StringByte(d: seq<byte>, i: nat, j: nat, s: seq<byte>, k: nat)
    requires StringAt(d, i, j, s) && k < |s|
    ensures s[k] == d[i + k] && s[k] in s
  {
    assert d[i..i + |s|][k] == d[i + k];
  }

  /** The token that comes next, after NOPs, is `t`. */
  predicate NextIs(d: seq<byte>, i: nat, t: nat) {
    TokenAt(d, i, SkipNops(d, i) + 4, t)
  }

  lemma NextFacts(d: seq<byte>, i: nat, t: nat)
    requires NextIs(d, i, t) && KnownToken(t)
    ensures Sane(d, i) && SkipNops(d, SkipNops(d, i)) == SkipNops(d, i)
    ensures t != PROP ==> forall m, p :: !PropAt(d, i, m, p)
    ensures forall j, u :: TokenAt(d, i, j, u) ==> j == SkipNops(d, i) + 4 && u == t
  {
    SkippedNops(d, i);
  }

  // ---- Open nodes ----------------------------------------------------------------------------

  /** At `i` the children of the innermost open node that are still to come start, followed by its end,
      and so on outwards until `j`. */
  ghost predicate RestAt(d: seq<byte>, i: nat, j: nat, open: seq<seq<Tree>>)
    decreases |open|
  {
    if open == [] then i == j
    else exists k, m :: KidsAt(d, i, k, open[0]) && TokenAt(d, k, m, END_NODE) && RestAt(d, m, j, open[1..])
  }

  lemma RestFirst(d: seq<byte>, i: nat, j: nat, open: seq<seq<Tree>>) returns (k: nat, m: nat)
    requires RestAt(d, i, j, open) && open != []
    ensures KidsAt(d, i, k, open[0]) && TokenAt(d, k, m, END_NODE) && RestAt(d, m, j, open[1..])
  {
    k, m :| KidsAt(d, i, k, open[0]) && TokenAt(d, k, m, END_NODE) && RestAt(d, m, j, open[1..]);
  }

  lemma RestCons(d: seq<byte>, i: nat, k: nat, m: nat, j: nat, ks: seq<Tree>, outer: seq<seq<Tree>>)
    requires KidsAt(d, i, k, ks) && TokenAt(d, k, m, END_NODE) && RestAt(d, m, j, outer)
    ensures RestAt(d, i, j, [ks] + outer)
  {
    hide KidsAt, TokenAt;
    assert ([ks] + outer)[1..] == outer;
  }

  lemma KidsFirst(d: seq<byte>, i: nat, j: nat, ks: seq<Tree>) returns (n: nat)
    requires KidsAt(d, i, j, ks) && ks != []
    ensures KidAt(d, i, n, ks[0]) && KidsAt(d, n, j, ks[1..])
  {
    n :| KidAt(d, i, n, ks[0]) && KidsAt(d, n, j, ks[1..]);
  }

  lemma KidsCons(d: seq<byte>, i: nat, n: nat, j: nat, ks: seq<Tree>)
    requires ks != [] && KidAt(d, i, n, ks[0]) && KidsAt(d, n, j, ks[1..])
    ensures KidsAt(d, i, j, ks)
  {
  }

  lemma KidsNone(d: seq<byte>, i: nat, j: nat)
    ensures KidsAt(d, i, j, []) <==> i == j
  {
  }

  lemma RestEnds(d: seq<byte>, i: nat, j: nat, open: seq<seq<Tree>>)
    requires RestAt(d, i, j, open) && open != [] && open[0] == []
    ensures NextIs(d, i, END_NODE) && RestAt(d, SkipNops(d, i) + 4, j, open[1..])
  {
    hide KidsAt, RestAt;
    var k, m := RestFirst(d, i, j, open);
    KidsNone(d, i, k);
  }

  /** Where the body of a child starts, and where its properties end. */
  lemma KidOpens(d: seq<byte>, i: nat, m: nat, c: Tree) returns (b: nat, p: nat)
    requires KidAt(d, i, m, c)
    ensures NextIs(d, i, BEGIN_NODE) && StringAt(d, SkipNops(d, i) + 4, b, c.name) && NodeAt(d, b, m, c)
    ensures PropsAt(d, b, p, c.props) && RestAt(d, p, m, [c.kids])
  {
    hide PropsAt, KidsAt, StringAt, NodeAt;
    var h;
    h, b :| TokenAt(d, i, h, BEGIN_NODE) && StringAt(d, h, b, c.name) && NodeAt(d, b, m, c);
    p := NodeOpens(d, b, m, c);
  }

  lemma NodeOpens(d: seq<byte>, i: nat, j: nat, t: Tree) returns (p: nat)
    requires NodeAt(d, i, j, t)
    ensures PropsAt(d, i, p, t.props) && RestAt(d, p, j, [t.kids])
  {
    hide PropsAt, KidsAt, TokenAt;
    var k;
    p, k :| PropsAt(d, i, p, t.props) && KidsAt(d, p, k, t.kids) && TokenAt(d, k, j, END_NODE);
    assert RestAt(d, j, j, []);
    RestCons(d, p, k, j, j, t.kids, []);
    assert [t.kids] + [] == [t.kids];
  }

  /** Entering the first child that is still to come. */
  lemma RestEnters(d: seq<byte>, i: nat, j: nat, open: seq<seq<Tree>>) returns (b: nat, p: nat)
    requires RestAt(d, i, j, open) && open != [] && open[0] != []
    ensures NextIs(d, i, BEGIN_NODE) && StringAt(d, SkipNops(d, i) + 4, b, open[0][0].name)
    ensures PropsAt(d, b, p, open[0][0].props)
    ensures RestAt(d, p, j, [open[0][0].kids, open[0][1..]] + open[1..])
  {
    hide PropsAt, StringAt, NodeAt, KidAt, KidsAt, RestAt, TokenAt;
    var ks := open[0];
    var k, m := RestFirst(d, i, j, open);
    var n := KidsFirst(d, i, k, ks);
    b, p := KidOpens(d, i, n, ks[0]);
    RestCons(d, n, k, m, j, ks[1..], open[1..]);
    RestPush(d, p, n, j, ks[0].kids, [ks[1..]] + open[1..]);
    assert [ks[0].kids, ks[1..]] + open[1..] == [ks[0].kids] + ([ks[1..]] + open[1..]);
  }

  lemma RestPush(d: seq<byte>, i: nat, m: nat, j: nat, ks: seq<Tree>, outer: seq<seq<Tree>>)
    requires RestAt(d, i, m, [ks]) && RestAt(d, m, j, outer)
    ensures RestAt(d, i, j, [ks] + outer)
  {
    hide KidsAt, TokenAt;
    var k, n := RestFirst(d, i, m, [ks]);
    assert [ks][1..] == [];
    RestCons(d, i, k, n, j, ks, outer);
  }

  lemma KidSkips(d: seq<byte>, i: nat, j: nat, c: Tree)
    requires KidAt(d, i, j, c)
    ensures KidAt(d, SkipNops(d, i), j, c)
  {
    hide NodeAt, StringAt;
    SkippedNops(d, i);
    var h, b :| TokenAt(d, i, h, BEGIN_NODE) && StringAt(d, h, b, c.name) && NodeAt(d, b, j, c);
    assert TokenAt(d, SkipNops(d, i), h, BEGIN_NODE);
  }

  /** NOPs in front do not matter. */
  lemma RestSkips(d: seq<byte>, i: nat, j: nat, open: seq<seq<Tree>>)
    requires RestAt(d, i, j, open) && open != []
    ensures RestAt(d, SkipNops(d, i), j, open)
  {
    hide KidAt, KidsAt, RestAt;
    SkippedNops(d, i);
    var p, ks := SkipNops(d, i), open[0];
    var k, m := RestFirst(d, i, j, open);
    if ks == [] {
      KidsNone(d, i, k);
      KidsNone(d, p, p);
      RestCons(d, p, p, m, j, ks, open[1..]);
    } else {
      var n := KidsFirst(d, i, k, ks);
      KidSkips(d, i, n, ks[0]);
      KidsCons(d, p, n, k, ks);
      RestCons(d, p, k, m, j, ks, open[1..]);
    }
    assert [ks] + open[1..] == open;
  }

  /** What follows is the begin of a child or the end of a node. */
  lemma RestNext(d: seq<byte>, i: nat, j: nat, open: seq<seq<Tree>>)
    requires RestAt(d, i, j, open) && open != []
    ensures NextIs(d, i, if open[0] == [] then END_NODE else BEGIN_NODE)
  {
    if open[0] == [] {
      RestEnds(d, i, j, open);
    } else {
      var b, p := RestEnters(d, i, j, open);
    }
  }

  /** The property that comes next, if any is left. */
  lemma PropNext(d: seq<byte>, strs: seq<byte>, i: nat, m: nat, ps: seq<Prop>, t: nat) returns (n: nat)
    requires PropsAt(d, i, m, ps) && Named(strs, ps) && NextIs(d, m, t) && KnownToken(t) && t != PROP
    ensures Sane(d, i)
    ensures ps == [] ==> i == m && !NextIs(d, i, PROP)
    ensures ps != [] ==> PropAt(d, i, n, ps[0]) && PropsAt(d, n, m, ps[1..]) && Named(strs, ps[1..])
  {
    hide Word;
    if ps == [] {
      NextFacts(d, m, t);
      n := m;
    } else {
      n :| PropAt(d, i, n, ps[0]) && PropsAt(d, n, m, ps[1..]);
    }
  }

  ghost predicate NamedOpen(strs: seq<byte>, open: seq<seq<Tree>>) {
    forall i, k | 0 <= i < |open| && k in open[i] :: NamedTree(strs, k)
  }

  lemma NamedRest(strs: seq<byte>, t: Tree)
    requires NamedTree(strs, t)
    ensures Named(strs, t.props) && NamedOpen(strs, [t.kids])
  {
  }

  lemma NamedEnter(strs: seq<byte>, t: Tree)
    requires NamedTree(strs, t)
    ensures Named(strs, t.props) && forall k | k in t.kids :: NamedTree(strs, k)
  {
  }

  lemma NextOf(d: seq<byte>, i: nat, j: nat, open: seq<seq<Tree>>) returns (t: nat)
    requires RestAt(d, i, j, open) && open != []
    ensures t == (if open[0] == [] then END_NODE else BEGIN_NODE) && NextIs(d, i, t) && KnownToken(t)
  {
    RestNext(d, i, j, open);
    t := if open[0] == [] then END_NODE else BEGIN_NODE;
  }

  lemma RestDone(d: seq<byte>, i: nat, j: nat, open: seq<seq<Tree>>)
    requires RestAt(d, i, j, open) && open == []
    ensures i == j
  {
  }

  // ---- What the reader does on any bytes -----------------------------------------------------

  /** Looking for a property or a child: it ends at `at`, or there is none and the reader stands at `at`, or
      the reader meets an unknown token or a name outside the strings block and panics. */
  datatype Read = Found(at: nat) | Stop(at: nat) | Panic

  /** `next_property` at `i`; a property that does not fit makes the reader give up and move to the end. */
  function ReadProp(d: seq<byte>, strs: seq<byte>, i: nat): (r: Read)
    ensures r.Found? ==> r.at > i && SkipNops(d, i) + 12 <= |d|
                         && SkipNops(d, i) + 12 + Word(d, SkipNops(d, i) + 4) <= |d|
    ensures r.Stop? && i <= |d| ==> r.at >= i
  {
    var p := SkipNops(d, i);
    if p + 4 > |d| then Stop(p)
    else if !KnownToken(Word(d, p)) then Panic
    else if Word(d, p) != PROP then Stop(p)
    else if p + 12 > |d| || p + 12 + Word(d, p + 4) > |d| then Stop(|d|)
    else if Word(d, p + 8) > |strs| then Panic
    else Found(AlignUp(p + 12 + Word(d, p + 4)))
  }

  function PropOf(d: seq<byte>, strs: seq<byte>, i: nat): Prop
    requires ReadProp(d, strs, i).Found?
  {
    var p := SkipNops(d, i);
    Prop(Word(d, p + 8), d[p + 12..p + 12 + Word(d, p + 4)])
  }

  /** Where `skip_properties` stops, unless it panics. */
  function SkipProps(d: seq<byte>, strs: seq<byte>, i: nat): (r: Option<nat>)
    ensures r.Some? && i <= |d| && |d| % 4 == 0 ==> r.value >= i
    decreases |d| - i
  {
    match ReadProp(d, strs, i)
    case Panic => None
    case Stop(p) => Some(p)
    case Found(j) => SkipProps(d, strs, j)
  }

  /** The first NUL at or after `i`, or the end. */
  function NulFrom(d: seq<byte>, i: nat): (z: nat)
    requires i <= |d|
    ensures i <= z <= |d| && (z < |d| ==> d[z] == 0) && forall k | i <= k < z :: d[k] != 0
    decreases |d| - i
  {
    if i == |d| || d[i] == 0 then i else NulFrom(d, i + 1)
  }

  /** `next_subnode` at `i` */
  function ReadSub(d: seq<byte>, i: nat): (r: Read)
    ensures r.Found? ==> r.at > i && SkipNops(d, i) + 4 <= |d|
    ensures r.Stop? && i <= |d| ==> r.at >= i
  {
    var p := SkipNops(d, i);
    if p + 4 > |d| then Stop(p)
    else if !KnownToken(Word(d, p)) then Panic
    else if Word(d, p) != BEGIN_NODE then Stop(p)
    else if NulFrom(d, p + 4) == |d| then Stop(|d|)
    else Found(AlignUp(NulFrom(d, p + 4) + 1))
  }

  function SubName(d: seq<byte>, i: nat): seq<byte>
    requires ReadSub(d, i).Found?
  {
    d[SkipNops(d, i) + 4..NulFrom(d, SkipNops(d, i) + 4)]
  }

  datatype Walk = At(pos: nat, pending: nat) | Panics

  /** Entering children as long as there are any (the inner loop of `skip_node`), with `n` nodes open. */
  function Descend(d: seq<byte>, strs: seq<byte>, i: nat, n: nat): (w: Walk)
    requires i <= |d| && |d| % 4 == 0
    ensures w.At? ==> w.pos >= i && w.pending >= n
    decreases |d| - i
  {
    match ReadSub(d, i)
    case Panic => Panics
    case Stop(p) => At(p, n)
    case Found(b) =>
      FoundInside(d, i);
      var p := SkipProps(d, strs, b);
      if p.None? then Panics
      else
        SkipInside(d, strs, b);
        Descend(d, strs, p.value, n + 1)
  }

  lemma FoundInside(d: seq<byte>, i: nat)
    requires |d| % 4 == 0 && i <= |d|
    ensures ReadSub(d, i).Found? ==> ReadSub(d, i).at <= |d|
    ensures ReadSub(d, i).Stop? ==> ReadSub(d, i).at <= |d|
  {
  }

  lemma PropInside(d: seq<byte>, strs: seq<byte>, i: nat)
    requires |d| % 4 == 0 && i <= |d|
    ensures var r := ReadProp(d, strs, i); !r.Panic? ==> i <= r.at <= |d| && (r.Found? ==> i < r.at)
  {
    hide Word, StringFrom;
  }

  lemma {:induction false} SkipInside(d: seq<byte>, strs: seq<byte>, i: nat)
    requires |d| % 4 == 0 && i <= |d|
    ensures SkipProps(d, strs, i).Some? ==> i <= SkipProps(d, strs, i).value <= |d|
    decreases |d| - i
  {
    hide ReadProp;
    PropInside(d, strs, i);
    if ReadProp(d, strs, i).Found? { SkipInside(d, strs, ReadProp(d, strs, i).at); }
  }

  lemma {:induction false} DescendInside(d: seq<byte>, strs: seq<byte>, i: nat, n: nat)
    requires |d| % 4 == 0 && i <= |d|
    ensures Descend(d, strs, i, n).At? ==> Descend(d, strs, i, n).pos <= |d|
    decreases |d| - i
  {
    FoundInside(d, i);
    if ReadSub(d, i).Found? {
      var b := ReadSub(d, i).at;
      SkipInside(d, strs, b);
      var p := SkipProps(d, strs, b);
      if p.Some? { DescendInside(d, strs, p.value, n + 1); }
    }
  }

  /** A skipped node ends at `pos`, or the reader gives up and moves to the end, or it panics. */
  datatype Skip = Done(pos: nat) | GaveUp | Panicked

  function SkipOpen(d: seq<byte>, strs: seq<byte>, i: nat, n: nat): (r: Skip)
    requires i <= |d| && |d| % 4 == 0
    ensures r.Done? ==> i <= r.pos <= |d|
    decreases |d| - i
  {
    if n == 0 then Done(i)
    else
      var w := Descend(d, strs, i, n);
      if w.Panics? then Panicked
      else
        var q := SkipNops(d, w.pos);
        if q + 4 > |d| then GaveUp
        else if !KnownToken(Word(d, q)) then Panicked
        else if Word(d, q) != END_NODE then GaveUp
        else SkipOpen(d, strs, q + 4, w.pending - 1)
  }

  /** `skip_node` at `i` */
  function SkipAll(d: seq<byte>, strs: seq<byte>, i: nat): (r: Skip)
    requires i <= |d| && |d| % 4 == 0
    ensures r.Done? ==> i <= r.pos <= |d|
  {
    var p := SkipProps(d, strs, i);
    if p.None? then Panicked
    else
      SkipInside(d, strs, i);
      SkipOpen(d, strs, p.value, 1)
  }

  class Tokenizer {
    const data: seq<byte>
    const strs: seq<byte>
    var pos: nat

    ghost predicate Valid()
      reads this
    {
      |data| % 4 == 0 && pos <= |data| && pos % 4 == 0
    }

    constructor (data: seq<byte>, strs: seq<byte>, pos: nat)
      requires |data| % 4 == 0 && pos <= |data| && pos % 4 == 0
      ensures Valid() && this.data == data && this.strs == strs && this.pos == pos
    {
      this.data, this.strs, this.pos := data, strs, pos;
    }

    /** Takes `size` bytes and skips to the next word. */
    method Bytes(size: nat) returns (r: Option<seq<byte>>)
      requires Valid()
      modifies this
      ensures Valid()
      ensures old(pos) + size > |data| ==> r.None? && pos == old(pos)
      ensures old(pos) + size <= |data| ==>
                r == Some(data[old(pos)..old(pos) + size]) && pos == AlignUp(old(pos) + size)
    {
      if |data| - pos < size {
        return None;
      }
      r := Some(data[pos..pos + size]);
      pos := AlignUp(pos + size);
    }

    method U32() returns (r: Option<nat>)
      requires Valid()
      modifies this
      ensures Valid()
      ensures old(pos) + 4 > |data| ==> r.None? && pos == old(pos)
      ensures old(pos) + 4 <= |data| ==> r == Some(Word(data, old(pos))) && pos == old(pos) + 4
    {
      var b := Bytes(4);
      if b.None? {
        return None;
      }
      r := Some(Word(b.value, 0));
    }

    /** The next token that is not a NOP. */
    method Token() returns (r: Option<nat>)
      requires Valid() && Sane(data, pos)
      modifies this
      ensures Valid()
      ensures var p := SkipNops(data, old(pos));
              if p + 4 <= |data| then r == Some(Word(data, p)) && pos == p + 4 else r.None? && pos == p == |data|
    {
      SkippedNops(data, pos);
      while true
        invariant Valid() && SkipNops(data, pos) == SkipNops(data, old(pos))
        decreases |data| - pos
      {
        ghost var here := pos;
        var v := U32();
        if v.None? {
          return None;
        }
        if v.value != NOP {
          return v;
        }
      }
    }

    /** Takes the next token if it is the expected one, and otherwise stops in front of it. */
    method TokenExpect(t: nat) returns (ok: bool)
      requires Valid() && Sane(data, pos) && t != NOP
      modifies this
      ensures Valid()
      ensures ok ==> TokenAt(data, old(pos), pos, t)
      ensures !ok ==> pos == SkipNops(data, old(pos)) && forall j :: !TokenAt(data, old(pos), j, t)
      ensures ok ==> pos > old(pos)
    {
      var token := Token();
      if token.None? {
        return false;
      }
      if token.value != t {
        pos := pos - 4;
        return false;
      }
      return true;
    }

    /** Takes a NUL-terminated string, including the NUL. */
    method Str() returns (r: Option<seq<byte>>)
      requires Valid()
      modifies this
      ensures Valid()
      ensures r.None? ==> pos == old(pos) && 0 !in data[pos..]
      ensures r.Some? ==>
                r.value != [] && StringAt(data, old(pos), pos, r.value[..|r.value| - 1]) &&
                r.value[|r.value| - 1] == 0
    {
      hide AlignUp;
      var i := pos;
      while i < |data| && data[i] != 0
        invariant pos <= i <= |data| && forall k | pos <= k < i :: data[k] != 0
      {
        i := i + 1;
      }
      if i == |data| {
        return None;
      }
      r := Some(data[pos..i + 1]);
      StringFound(data, pos, i);
      pos := AlignUp(i + 1);
    }

    /** Moves to the end, so that no more tokens are found. */
    method Collapse()
      requires Valid()
      modifies this
      ensures Valid() && pos == |data|
    {
      pos := |data|;
    }

    /** The next property. A property that does not fit makes the reader give up. */
    method NextProperty() returns (r: Option<Prop>)
      requires Valid() && !ReadProp(data, strs, pos).Panic?
      modifies this
      ensures Valid() && (r.Some? <==> ReadProp(data, strs, old(pos)).Found?)
      ensures r.Some? ==> r.value == PropOf(data, strs, old(pos))
      ensures pos == ReadProp(data, strs, old(pos)).at >= old(pos)
    {
      hide Word, AlignUp;
      ghost var p := SkipNops(data, pos);
      var begins := TokenExpect(PROP);
      if !begins {
        assert !TokenAt(data, old(pos), p + 4, PROP);
        return None;
      }
      var size := U32();
      if size.None? {
        Collapse();
        return None;
      }
      var nameoff := U32();
      if nameoff.None? {
        Collapse();
        return None;
      }
      var buf := Bytes(size.value);
      if buf.None? {
        Collapse();
        return None;
      }
      var _ := strs[nameoff.value..];
      r := Some(Prop(nameoff.value, buf.value));
    }

    /** The name of the next child node. */
    method NextSubnode() returns (r: Option<seq<byte>>)
      requires Valid() && !ReadSub(data, pos).Panic?
      modifies this
      ensures Valid() && (r.Some? <==> ReadSub(data, old(pos)).Found?)
      ensures r.Some? ==> r.value == SubName(data, old(pos))
      ensures pos == ReadSub(data, old(pos)).at >= old(pos)
    {
      hide Word, AlignUp;
      ghost var p := SkipNops(data, pos);
      var begins := TokenExpect(BEGIN_NODE);
      if !begins {
        assert !TokenAt(data, old(pos), p + 4, BEGIN_NODE);
        return None;
      }
      var name := Str();
      if name.None? {
        NoNul(data, p + 4);
        Collapse();
        return None;
      }
      NulIs(data, p + 4, pos, name.value[..|name.value| - 1]);
      r := Some(name.value[..|name.value| - 1]);
    }

    /** Skips all properties; what it does on any bytes, short of a panic. */
    method SkipProperties()
      requires Valid() && SkipProps(data, strs, pos).Some?
      modifies this
      ensures Valid() && pos >= old(pos) && Some(pos) == SkipProps(data, strs, old(pos))
    {
      hide PropOf;
      while true
        invariant Valid() && pos >= old(pos) && SkipProps(data, strs, pos) == SkipProps(data, strs, old(pos))
        decreases |data| - pos
      {
        var p := NextProperty();
        if p.None? {
          break;
        }
      }
    }

    /** Skips the rest of a node, or gives up at a token that does not belong there. */
    method SkipNode() returns (ok: bool)
      requires Valid() && !SkipAll(data, strs, pos).Panicked?
      modifies this
      ensures Valid() && pos >= old(pos) && (ok <==> SkipAll(data, strs, old(pos)).Done?)
      ensures pos == if ok then SkipAll(data, strs, old(pos)).pos else |data|
    {
      hide SkipProps, Descend, Word;
      var pending := 1;
      SkipProperties();
      while pending != 0
        invariant Valid() && pos >= old(pos) && SkipOpen(data, strs, pos, pending) == SkipAll(data, strs, old(pos))
        decreases |data| - pos
      {
        ghost var w := Descend(data, strs, pos, pending);
        pending := Enter(pending);
        var token := Token();
        if token.None? {
          return false;
        }
        if token.value != END_NODE {
          Collapse();
          return false;
        }
        pending := pending - 1;
      }
      return true;
    }

    /** Enters children as long as there are any (the inner loop of `skip_node`). */
    method Enter(pending0: nat) returns (pending: nat)
      requires Valid() && !Descend(data, strs, pos, pending0).Panics?
      modifies this
      ensures Valid() && pos >= old(pos) && pending >= pending0
      ensures At(pos, pending) == Descend(data, strs, old(pos), pending0)
    {
      hide SkipProps, Word, SubName, ReadSub;
      pending := pending0;
      while true
        invariant Valid() && pos >= old(pos) && pending >= pending0
        invariant Descend(data, strs, pos, pending) == Descend(data, strs, old(pos), pending0)
        decreases |data| - pos
      {
        var name := NextSubnode();
        if name.None? {
          break;
        }
        SkipProperties();
        pending := pending + 1;
      }
    }
  }

  lemma NoNul(d: seq<byte>, i: nat)
    requires i <= |d| && 0 !in d[i..]
    ensures NulFrom(d, i) == |d|
  {
    assert forall k | i <= k < |d| :: d[k] == d[i..][k - i];
  }

  lemma NulIs(d: seq<byte>, i: nat, j: nat, s: seq<byte>)
    requires i <= |d| && StringAt(d, i, j, s)
    ensures NulFrom(d, i) == i + |s| && d[i..NulFrom(d, i)] == s && j == AlignUp(NulFrom(d, i) + 1)
  {
    hide AlignUp;
    var z := NulFrom(d, i);
    if z < i + |s| {
      StringByte(d, i, j, s, z - i);
    }
  }

  // ---- Well-formed nodes ---------------------------------------------------------------------

  lemma PropFound(d: seq<byte>, strs: seq<byte>, i: nat, j: nat, p: Prop)
    requires PropAt(d, i, j, p) && p.nameoff <= |strs|
    ensures ReadProp(d, strs, i) == Found(j) && PropOf(d, strs, i) == p
  {
    hide Word, AlignUp, SkipNops;
  }

  /** The properties of a node are skipped to the token after them. */
  lemma {:induction false} PropsSkipped(d: seq<byte>, strs: seq<byte>, i: nat, m: nat, ps: seq<Prop>, t: nat)
    requires PropsAt(d, i, m, ps) && Named(strs, ps) && NextIs(d, m, t) && KnownToken(t) && t != PROP
    ensures SkipProps(d, strs, i) == Some(SkipNops(d, m))
    decreases |ps|
  {
    hide PropAt, StringFrom, Word, PropOf, KnownToken;
    var n := PropNext(d, strs, i, m, ps, t);
    if ps == [] {
      NextStops(d, strs, m, t);
    } else {
      assert ps[0] in ps;
      NamedInside(strs, ps[0].nameoff);
      PropFound(d, strs, i, n, ps[0]);
      PropsSkipped(d, strs, n, m, ps[1..], t);
    }
  }

  lemma NamedInside(strs: seq<byte>, off: nat)
    requires StringFrom(strs, off).Some?
    ensures off <= |strs|
  {
  }

  lemma NextStops(d: seq<byte>, strs: seq<byte>, i: nat, t: nat)
    requires NextIs(d, i, t) && KnownToken(t)
    ensures t != PROP ==> ReadProp(d, strs, i) == Stop(SkipNops(d, i))
    ensures t != BEGIN_NODE ==> ReadSub(d, i) == Stop(SkipNops(d, i))
  {
    hide AlignUp;
  }

  lemma SubFound(d: seq<byte>, i: nat, b: nat, s: seq<byte>)
    requires NextIs(d, i, BEGIN_NODE) && StringAt(d, SkipNops(d, i) + 4, b, s)
    ensures ReadSub(d, i) == Found(b) && SubName(d, i) == s
  {
    hide AlignUp, Word;
    NulIs(d, SkipNops(d, i) + 4, b, s);
  }

  /** Skipping with `open` nodes open ends just past the end of the outermost. */
  lemma {:induction false} OpenSkipped(d: seq<byte>, strs: seq<byte>, i: nat, j: nat, open: seq<seq<Tree>>)
    requires i <= |d| && |d| % 4 == 0 && RestAt(d, i, j, open) && NamedOpen(strs, open)
    ensures SkipOpen(d, strs, i, |open|) == Done(j)
    decreases |d| - i
  {
    hide RestAt, NextIs, KnownToken, NamedTree, StringAt, PropsAt, Sane, TokenAt, Word, SkipProps, ReadSub, SkipNops;
    if open == [] {
      RestDone(d, i, j, open);
    } else if open[0] == [] {
      RestEnds(d, i, j, open);
      EndSkipped(d, strs, i, |open|);
      OpenSkipped(d, strs, SkipNops(d, i) + 4, j, open[1..]);
    } else {
      var c := open[0][0];
      var b, p := RestEnters(d, i, j, open);
      var inner := [c.kids, open[0][1..]] + open[1..];
      NamedEnter(strs, c);
      var t := NextOf(d, p, j, inner);
      SubFound(d, i, b, c.name);
      PropsSkipped(d, strs, b, p, c.props, t);
      RestSkips(d, p, j, inner);
      FoundInside(d, i);
      SkipInside(d, strs, b);
      OpenSkipped(d, strs, SkipNops(d, p), j, inner);
    }
  }

  lemma EndSkipped(d: seq<byte>, strs: seq<byte>, i: nat, n: nat)
    requires i <= |d| && |d| % 4 == 0 && NextIs(d, i, END_NODE) && n > 0
    ensures SkipNops(d, i) + 4 <= |d|
    ensures SkipOpen(d, strs, i, n) == SkipOpen(d, strs, SkipNops(d, i) + 4, n - 1)
  {
    hide Word, ReadSub, SkipProps, AlignUp;
    SkippedNops(d, i);
    NextStops(d, strs, i, END_NODE);
    assert Descend(d, strs, i, n) == At(SkipNops(d, i), n);
  }

  /** `skip_node` ends just past the end token of a well-formed node, however deep its children nest. */
  lemma NodeSkipped(d: seq<byte>, strs: seq<byte>, i: nat, j: nat, t: Tree)
    requires i <= |d| && |d| % 4 == 0 && NodeAt(d, i, j, t) && NamedTree(strs, t)
    ensures SkipAll(d, strs, i) == Done(j)
  {
    hide NodeAt, RestAt, NextIs, KnownToken, NamedTree, PropsAt, SkipOpen, SkipProps;
    var p := NodeOpens(d, i, j, t);
    NamedRest(strs, t);
    var next := NextOf(d, p, j, [t.kids]);
    PropsSkipped(d, strs, i, p, t.props, next);
    RestSkips(d, p, j, [t.kids]);
    SkipInside(d, strs, i);
    OpenSkipped(d, strs, SkipNops(d, p), j, [t.kids]);
  }

  // ---- The bytes determine the tree ----------------------------------------------------------

  lemma {:induction false} OneProps(d: seq<byte>, i: nat, m: nat, ps: seq<Prop>, t: nat, m': nat, ps': seq<Prop>,
                                    t': nat)
    requires PropsAt(d, i, m, ps) && NextIs(d, m, t) && KnownToken(t) && t != PROP
    requires PropsAt(d, i, m', ps') && NextIs(d, m', t') && KnownToken(t') && t' != PROP
    ensures m == m' && ps == ps'
    decreases |ps|
  {
    hide PropAt, TokenAt;
    if ps == [] || ps' == [] {
      NextFacts(d, m, t);
      NextFacts(d, m', t');
    } else {
      var n :| PropAt(d, i, n, ps[0]) && PropsAt(d, n, m, ps[1..]);
      var n' :| PropAt(d, i, n', ps'[0]) && PropsAt(d, n', m', ps'[1..]);
      OneProp(d, i, n, ps[0], n', ps'[0]);
      OneProps(d, n, m, ps[1..], t, m', ps'[1..], t');
      assert ps == [ps[0]] + ps[1..] && ps' == [ps'[0]] + ps'[1..];
    }
  }

  /** A structure block can be read as one tree only. */
  lemma {:induction false} OneTree(d: seq<byte>, i: nat, j: nat, t: Tree, j': nat, t': Tree)
    requires NodeAt(d, i, j, t) && NodeAt(d, i, j', t')
    ensures j == j' && t.props == t'.props && t.kids == t'.kids
    decreases t, 0
  {
    hide NodeAt, RestAt, PropsAt, NextIs;
    var p := NodeOpens(d, i, j, t);
    var p' := NodeOpens(d, i, j', t');
    var n := NextOf(d, p, j, [t.kids]);
    var n' := NextOf(d, p', j', [t'.kids]);
    OneProps(d, i, p, t.props, n, p', t'.props, n');
    OneKids(d, p, j, t.kids, j', t'.kids);
  }

  lemma {:induction false} OneKids(d: seq<byte>, i: nat, j: nat, ks: seq<Tree>, j': nat, ks': seq<Tree>)
    requires RestAt(d, i, j, [ks]) && RestAt(d, i, j', [ks'])
    ensures j == j' && ks == ks'
    decreases ks, 1
  {
    hide NodeAt, RestAt, StringAt, TokenAt;
    var n := NextOf(d, i, j, [ks]);
    var n' := NextOf(d, i, j', [ks']);
    NextFacts(d, i, n);
    if ks == [] {
      RestEnds(d, i, j, [ks]);
      RestEnds(d, i, j', [ks']);
      RestDone(d, SkipNops(d, i) + 4, j, [ks][1..]);
      RestDone(d, SkipNops(d, i) + 4, j', [ks'][1..]);
    } else {
      var b, m := RestKid(d, i, j, ks);
      var b', m' := RestKid(d, i, j', ks');
      OneString(d, SkipNops(d, i) + 4, b, ks[0].name, b', ks'[0].name);
      OneTree(d, b, m, ks[0], m', ks'[0]);
      OneKids(d, m, j, ks[1..], j', ks'[1..]);
      assert ks == [ks[0]] + ks[1..] && ks' == [ks'[0]] + ks'[1..];
    }
  }

  /** Writing a tree, with any NOPs, and reading the bytes gives this tree and no other. */
  lemma RoundTrip(t: Padded)
    requires Writable(t)
    ensures NodeAt(WriteBody(t), 0, |WriteBody(t)|, Plain(t))
    ensures forall j, u :: NodeAt(WriteBody(t), 0, j, u) ==>
              j == |WriteBody(t)| && u.props == Plain(t).props && u.kids == Plain(t).kids
  {
    hide NodeAt, Plain;
    var d := WriteBody(t);
    assert d[0..0 + |d|] == d;
    BodyHere(d, 0, t);
    forall j, u | NodeAt(d, 0, j, u) ensures j == |d| && u.props == Plain(t).props && u.kids == Plain(t).kids {
      OneTree(d, 0, |d|, Plain(t), j, u);
    }
  }

  // ---- Nodes ---------------------------------------------------------------------------------

  lemma RestKid(d: seq<byte>, i: nat, j: nat, ks: seq<Tree>) returns (b: nat, m: nat)
    requires RestAt(d, i, j, [ks]) && ks != []
    ensures StringAt(d, SkipNops(d, i) + 4, b, ks[0].name) && NodeAt(d, b, m, ks[0]) && RestAt(d, m, j, [ks[1..]])
  {
    hide PropsAt, StringAt, NodeAt, KidAt, KidsAt, RestAt, TokenAt;
    var k, e := RestFirst(d, i, j, [ks]);
    m := KidsFirst(d, i, k, ks);
    var p;
    b, p := KidOpens(d, i, m, ks[0]);
    RestCons(d, m, k, e, j, ks[1..], [ks][1..]);
    assert [ks[1..]] + [ks][1..] == [ks[1..]];
  }

  /** The number of the first property or child with a given name. */
  function FirstProp(strs: seq<byte>, ps: seq<Prop>, name: seq<byte>): (i: nat)
    ensures i <= |ps| && (i < |ps| ==> StringFrom(strs, ps[i].nameoff) == Some(name))
    ensures forall k | 0 <= k < i :: StringFrom(strs, ps[k].nameoff) != Some(name)
  {
    if ps == [] || StringFrom(strs, ps[0].nameoff) == Some(name) then 0 else 1 + FirstProp(strs, ps[1..], name)
  }

  function FirstKid(ks: seq<Tree>, name: seq<byte>): (i: nat)
    ensures i <= |ks| && (i < |ks| ==> ks[i].name == name)
    ensures forall k | 0 <= k < i :: ks[k].name != name
  {
    if ks == [] || ks[0].name == name then 0 else 1 + FirstKid(ks[1..], name)
  }

  /** Looking up a property: its value, none, or a panic or a name that runs out of the strings block. */
  datatype Lookup = Value(value: seq<byte>) | Missing | Unsafe

  /** `read_property` at `i` */
  function FindProp(d: seq<byte>, strs: seq<byte>, i: nat, name: seq<byte>): Lookup
    decreases |d| - i
  {
    match ReadProp(d, strs, i)
    case Panic => Unsafe
    case Stop(_) => Missing
    case Found(j) =>
      var p := PropOf(d, strs, i);
      var n := StringFrom(strs, p.nameoff);
      if n.None? then Unsafe else if n.value == name then Value(p.value) else FindProp(d, strs, j, name)
  }

  /** Looking for a child: its name and where its body starts. */
  datatype Child = Child(name: seq<byte>, pos: nat) | NoChild | ChildPanics

  function SubAt(d: seq<byte>, i: nat): (c: Child)
    ensures c.Child? ==> c.pos > i
  {
    match ReadSub(d, i)
    case Panic => ChildPanics
    case Stop(_) => NoChild
    case Found(b) => Child(SubName(d, i), b)
  }

  /** `first_child` of the node at `i` */
  function FirstOf(d: seq<byte>, strs: seq<byte>, i: nat): Child {
    var p := SkipProps(d, strs, i);
    if p.None? then ChildPanics else SubAt(d, p.value)
  }

  /** `next_sibling` of the node at `i` */
  function SiblingOf(d: seq<byte>, strs: seq<byte>, i: nat): Child
    requires i <= |d| && |d| % 4 == 0
  {
    match SkipAll(d, strs, i)
    case Panicked => ChildPanics
    case GaveUp => NoChild
    case Done(p) => SubAt(d, p)
  }

  /** The loop of `find_child`; a child that cannot be skipped ends the search. */
  function FindSub(d: seq<byte>, strs: seq<byte>, i: nat, name: seq<byte>): Child
    requires i <= |d| && |d| % 4 == 0
    decreases |d| - i
  {
    var c := SubAt(d, i);
    if !c.Child? || c.name == name then c
    else
      FoundInside(d, i);
      match SkipAll(d, strs, c.pos)
      case Panicked => ChildPanics
      case GaveUp => NoChild
      case Done(p) => FindSub(d, strs, p, name)
  }

  /** `find_child` of the node at `i` */
  function FindOf(d: seq<byte>, strs: seq<byte>, i: nat, name: seq<byte>): Child
    requires i <= |d| && |d| % 4 == 0
  {
    var p := SkipProps(d, strs, i);
    if p.None? then ChildPanics
    else
      SkipInside(d, strs, i);
      FindSub(d, strs, p.value, name)
  }

  class Node {
    const data: seq<byte>
    const strs: seq<byte>

    // Where the body of the node starts.
    var pos: nat

    ghost predicate Valid()
      reads this
    {
      |data| % 4 == 0 && pos <= |data| && pos % 4 == 0
    }

    constructor (data: seq<byte>, strs: seq<byte>, pos: nat)
      requires |data| % 4 == 0 && pos <= |data| && pos % 4 == 0
      ensures Valid() && this.data == data && this.strs == strs && this.pos == pos
    {
      this.data, this.strs, this.pos := data, strs, pos;
    }

    /** The value of the first property with the given name. */
    method ReadProperty(name: seq<byte>) returns (r: Option<seq<byte>>)
      requires Valid() && !FindProp(data, strs, pos, name).Unsafe?
      ensures match FindProp(data, strs, pos, name)
              case Value(v) => r == Some(v)
              case Missing => r.None?
    {
      hide PropOf, StringFrom, ReadProp;
      var z := new Tokenizer(data, strs, pos);
      while true
        invariant z.Valid() && z.data == data && z.strs == strs &&
                  FindProp(data, strs, z.pos, name) == FindProp(data, strs, pos, name)
        decreases |data| - z.pos
      {
        ghost var here := z.pos;
        var p := z.NextProperty();
        if p.None? {
          return None;
        }
        PropProgress(data, strs, here);
        if StringFrom(strs, p.value.nameoff) == Some(name) {
          return Some(p.value.value);
        }
      }
    }

    /** The result of looking for a child. */
    ghost predicate Entered(c: Child, r: Option<seq<byte>>, was: nat)
      reads this
    {
      match c
      case Child(name, p) => r == Some(name) && pos == p
      case NoChild => r.None? && pos == was
      case ChildPanics => false
    }

    /** Moves to the first child and returns its name, if there is one. */
    method FirstChild() returns (r: Option<seq<byte>>)
      requires Valid() && !FirstOf(data, strs, pos).ChildPanics?
      modifies this
      ensures Valid() && Entered(FirstOf(data, strs, old(pos)), r, old(pos))
    {
      hide SkipProps, ReadSub, SubName;
      var z := new Tokenizer(data, strs, pos);
      z.SkipProperties();
      r := z.NextSubnode();
      if r.Some? {
        pos := z.pos;
      }
    }

    /** Moves to the next sibling and returns its name, if there is one. */
    method NextSibling() returns (r: Option<seq<byte>>)
      requires Valid() && !SiblingOf(data, strs, pos).ChildPanics?
      modifies this
      ensures Valid() && Entered(SiblingOf(data, strs, old(pos)), r, old(pos))
    {
      hide SkipAll, ReadSub, SubName;
      var z := new Tokenizer(data, strs, pos);
      var ok := z.SkipNode();
      if !ok {
        return None;
      }
      r := z.NextSubnode();
      if r.Some? {
        pos := z.pos;
      }
    }

    /** Moves to the first child with the given name; succeeds exactly when there is one. */
    method FindChild(name: seq<byte>) returns (found: bool)
      requires Valid() && !FindOf(data, strs, pos, name).ChildPanics?
      modifies this
      ensures Valid() && Entered(FindOf(data, strs, old(pos), name), if found then Some(name) else None, old(pos))
    {
      hide SkipAll, SkipProps, ReadSub, SubName;
      var z := new Tokenizer(data, strs, pos);
      z.SkipProperties();
      while true
        invariant z.Valid() && z.data == data && z.strs == strs && fresh(z) && pos == old(pos)
        invariant FindSub(data, strs, z.pos, name) == FindOf(data, strs, old(pos), name) ||
                  (z.pos == |data| && FindOf(data, strs, old(pos), name).NoChild?)
        invariant !FindSub(data, strs, z.pos, name).ChildPanics?
        decreases |data| - z.pos
      {
        var n := z.NextSubnode();
        if n.None? {
          return false;
        }
        if n.value == name {
          pos := z.pos;
          return true;
        }
        var _ := z.SkipNode();
        AtEnd(data, strs, name);
      }
    }
  }

  lemma PropProgress(d: seq<byte>, strs: seq<byte>, i: nat)
    ensures ReadProp(d, strs, i).Found? ==> ReadProp(d, strs, i).at > i
  {
  }

  /** At the end there is nothing to find. */
  lemma AtEnd(d: seq<byte>, strs: seq<byte>, name: seq<byte>)
    requires |d| % 4 == 0
    ensures FindSub(d, strs, |d|, name).NoChild? && ReadSub(d, |d|).Stop?
  {
  }

  // ---- Nodes of a tree -----------------------------------------------------------------------

  /** Reading a property of a well-formed node gives the first one of that name. */
  lemma {:induction false} FindPropIs(d: seq<byte>, strs: seq<byte>, i: nat, m: nat, ps: seq<Prop>, t: nat,
                                      name: seq<byte>)
    requires PropsAt(d, i, m, ps) && Named(strs, ps) && NextIs(d, m, t) && KnownToken(t) && t != PROP
    ensures var k := FirstProp(strs, ps, name);
            FindProp(d, strs, i, name) == if k < |ps| then Value(ps[k].value) else Missing
    decreases |ps|
  {
    hide PropAt, StringFrom, Word, PropOf, KnownToken;
    var n := PropNext(d, strs, i, m, ps, t);
    if ps == [] {
      NextStops(d, strs, m, t);
    } else {
      assert ps[0] in ps;
      NamedInside(strs, ps[0].nameoff);
      PropFound(d, strs, i, n, ps[0]);
      FindPropIs(d, strs, n, m, ps[1..], t, name);
    }
  }

  lemma PropertyOf(d: seq<byte>, strs: seq<byte>, i: nat, j: nat, t: Tree, name: seq<byte>)
    requires NodeAt(d, i, j, t) && NamedTree(strs, t)
    ensures var k := FirstProp(strs, t.props, name);
            FindProp(d, strs, i, name) == if k < |t.props| then Value(t.props[k].value) else Missing
  {
    hide NodeAt, RestAt, NextIs, KnownToken, NamedTree, PropsAt, FindProp, FirstProp;
    var p := NodeOpens(d, i, j, t);
    NamedRest(strs, t);
    var next := NextOf(d, p, j, [t.kids]);
    FindPropIs(d, strs, i, p, t.props, next, name);
  }

  /** The child that comes next, if any is left. */
  lemma SubIs(d: seq<byte>, i: nat, j: nat, ks: seq<Tree>) returns (b: nat, m: nat)
    requires RestAt(d, i, j, [ks])
    ensures SubAt(d, i) == (if ks == [] then NoChild else Child(ks[0].name, b)) &&
            SubAt(d, SkipNops(d, i)) == SubAt(d, i)
    ensures ks != [] ==> NodeAt(d, b, m, ks[0]) && RestAt(d, m, j, [ks[1..]])
  {
    hide NodeAt, RestAt, StringAt, KnownToken, SubName;
    var t := NextOf(d, i, j, [ks]);
    b, m := 0, 0;
    SameSub(d, i);
    if ks == [] {
      NextStops(d, [], i, t);
    } else {
      b, m := RestKid(d, i, j, ks);
      SubFound(d, i, b, ks[0].name);
    }
  }

  lemma SameSub(d: seq<byte>, i: nat)
    ensures SubAt(d, SkipNops(d, i)) == SubAt(d, i)
  {
    SkippedNops(d, i);
  }

  lemma PropsOfNode(d: seq<byte>, strs: seq<byte>, i: nat, j: nat, t: Tree) returns (p: nat)
    requires NodeAt(d, i, j, t) && NamedTree(strs, t)
    ensures SkipProps(d, strs, i) == Some(p) && RestAt(d, p, j, [t.kids])
  {
    hide NodeAt, RestAt, NextIs, KnownToken, NamedTree, PropsAt, SkipProps;
    var q := NodeOpens(d, i, j, t);
    NamedRest(strs, t);
    var next := NextOf(d, q, j, [t.kids]);
    PropsSkipped(d, strs, i, q, t.props, next);
    RestSkips(d, q, j, [t.kids]);
    p := SkipNops(d, q);
  }

  /** The first child of a well-formed node, if it has children. */
  lemma FirstChildOf(d: seq<byte>, strs: seq<byte>, i: nat, j: nat, t: Tree) returns (b: nat, m: nat)
    requires NodeAt(d, i, j, t) && NamedTree(strs, t)
    ensures FirstOf(d, strs, i) == if t.kids == [] then NoChild else Child(t.kids[0].name, b)
    ensures t.kids != [] ==> NodeAt(d, b, m, t.kids[0]) && RestAt(d, m, j, [t.kids[1..]])
  {
    hide NodeAt, RestAt, NamedTree, SkipProps, SubAt;
    var p := PropsOfNode(d, strs, i, j, t);
    b, m := SubIs(d, p, j, t.kids);
  }

  /** The next sibling of a well-formed node, `rest` being the siblings after it. */
  lemma NextSiblingOf(d: seq<byte>, strs: seq<byte>, i: nat, j: nat, t: Tree, rest: seq<Tree>, e: nat)
    returns (b: nat, m: nat)
    requires i <= |d| && |d| % 4 == 0 && NodeAt(d, i, j, t) && NamedTree(strs, t) && RestAt(d, j, e, [rest])
    ensures SiblingOf(d, strs, i) == if rest == [] then NoChild else Child(rest[0].name, b)
    ensures rest != [] ==> NodeAt(d, b, m, rest[0]) && RestAt(d, m, e, [rest[1..]])
  {
    hide NodeAt, RestAt, NamedTree, SkipAll, SubAt;
    NodeSkipped(d, strs, i, j, t);
    b, m := SubIs(d, j, e, rest);
  }

  lemma {:induction false} FindSubIs(d: seq<byte>, strs: seq<byte>, i: nat, j: nat, ks: seq<Tree>, name: seq<byte>)
    returns (b: nat, m: nat)
    requires i <= |d| && |d| % 4 == 0 && RestAt(d, i, j, [ks]) && NamedOpen(strs, [ks])
    ensures var k := FirstKid(ks, name);
            FindSub(d, strs, i, name) == (if k < |ks| then Child(name, b) else NoChild) &&
              (k < |ks| ==> NodeAt(d, b, m, ks[k]))
    decreases |ks|
  {
    hide NodeAt, RestAt, NamedTree, SkipAll, SubAt;
    b, m := SubIs(d, i, j, ks);
    if ks != [] && ks[0].name != name {
      assert [ks][0] == ks && ks[0] in ks;
      ChildInside(d, i);
      NodeSkipped(d, strs, b, m, ks[0]);
      b, m := FindSubIs(d, strs, m, j, ks[1..], name);
    }
  }

  lemma ChildInside(d: seq<byte>, i: nat)
    requires i <= |d| && |d| % 4 == 0
    ensures SubAt(d, i).Child? ==> SubAt(d, i).pos <= |d|
  {
    FoundInside(d, i);
  }

  /** The first child of that name of a well-formed node, if it has one. */
  lemma FindChildOf(d: seq<byte>, strs: seq<byte>, i: nat, j: nat, t: Tree, name: seq<byte>) returns (b: nat, m: nat)
    requires i <= |d| && |d| % 4 == 0 && NodeAt(d, i, j, t) && NamedTree(strs, t)
    ensures var k := FirstKid(t.kids, name);
            FindOf(d, strs, i, name) == (if k < |t.kids| then Child(name, b) else NoChild) &&
              (k < |t.kids| ==> NodeAt(d, b, m, t.kids[k]))
  {
    hide NodeAt, RestAt, NamedTree, SkipProps, FindSub, FirstKid;
    var p := PropsOfNode(d, strs, i, j, t);
    SkipInside(d, strs, i);
    NamedRest(strs, t);
    b, m := FindSubIs(d, strs, p, j, t.kids, name);
  }
}
