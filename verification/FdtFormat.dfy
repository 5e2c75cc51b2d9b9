/** The structure block of a flattened device tree (sections 5.3 and 5.4 of the Devicetree Specification):
    what it means for bytes to spell out a node, and a writer for every tree. */
module FdtFormat {

  newtype byte = x: int | 0 <= x < 256

  const BEGIN_NODE: nat := 1
  const END_NODE: nat := 2
  const PROP: nat := 3
  const NOP: nat := 4
  const END: nat := 9

  predicate KnownToken(v: nat) {
    v == BEGIN_NODE || v == END_NODE || v == PROP || v == NOP || v == END
  }

  /** A property: where its name is in the strings block, and its value. */
  datatype Prop = Prop(nameoff: nat, value: seq<byte>)

  datatype Tree = Tree(name: seq<byte>, props: seq<Prop>, kids: seq<Tree>)

  // ---- Reading positions ---------------------------------------------------------------------

  /** The big-endian word at `i`. */
  function Word(d: seq<byte>, i: nat): nat
    requires i + 4 <= |d|
  {
    (d[i] as nat) * 0x100_0000 + (d[i + 1] as nat) * 0x1_0000 + (d[i + 2] as nat) * 0x100 + (d[i + 3] as nat)
  }

  function AlignUp(i: nat): (r: nat)
    ensures i <= r < i + 4 && r % 4 == 0
  {
    (i + 3) / 4 * 4
  }

  /** The first word at or after `i` that is not a NOP. */
  function SkipNops(d: seq<byte>, i: nat): (p: nat)
    ensures p >= i && (i % 4 == 0 ==> p % 4 == 0) && (i <= |d| ==> p <= |d|)
    decreases |d| - i
  {
    if i + 4 <= |d| && Word(d, i) == NOP then SkipNops(d, i + 4) else i
  }

  lemma {:induction false} SkippedNops(d: seq<byte>, i: nat)
    ensures var p := SkipNops(d, i); p + 4 <= |d| ==> Word(d, p) != NOP
    ensures SkipNops(d, SkipNops(d, i)) == SkipNops(d, i)
    decreases |d| - i
  {
    if i + 4 <= |d| && Word(d, i) == NOP { SkippedNops(d, i + 4); }
  }

  /** After any NOPs there is a token `t`, and `j` is just past it. */
  predicate TokenAt(d: seq<byte>, i: nat, j: nat, t: nat) {
    var p := SkipNops(d, i);
    p + 4 <= |d| && Word(d, p) == t && j == p + 4
  }

  /** A string without NUL, its terminator and padding fill `[i, j)`. */
  predicate StringAt(d: seq<byte>, i: nat, j: nat, s: seq<byte>) {
    && i + |s| < |d| && d[i..i + |s|] == s && d[i + |s|] == 0 && 0 !in s
    && j == AlignUp(i + |s| + 1) && j <= |d|
  }

  predicate PropAt(d: seq<byte>, i: nat, j: nat, p: Prop) {
    var h := SkipNops(d, i) + 4;
    && TokenAt(d, i, h, PROP) && h + 8 <= |d|
    && Word(d, h) == |p.value| && Word(d, h + 4) == p.nameoff
    && h + 8 + |p.value| <= |d| && d[h + 8..h + 8 + |p.value|] == p.value
    && j == AlignUp(h + 8 + |p.value|) && j <= |d|
  }

  ghost predicate PropsAt(d: seq<byte>, i: nat, j: nat, ps: seq<Prop>)
    decreases |ps|
  {
    if ps == [] then i == j
    else exists m :: PropAt(d, i, m, ps[0]) && PropsAt(d, m, j, ps[1..])
  }

  /** The body of a node, after its name: properties, children and the end token. */
  ghost predicate NodeAt(d: seq<byte>, i: nat, j: nat, t: Tree)
    decreases t, 0
  {
    exists m, k :: PropsAt(d, i, m, t.props) && KidsAt(d, m, k, t.kids) && TokenAt(d, k, j, END_NODE)
  }

  /** A child node with its begin token and name. */
  ghost predicate KidAt(d: seq<byte>, i: nat, j: nat, t: Tree)
    decreases t, 1
  {
    exists m, b :: TokenAt(d, i, m, BEGIN_NODE) && StringAt(d, m, b, t.name) && NodeAt(d, b, j, t)
  }

  ghost predicate KidsAt(d: seq<byte>, i: nat, j: nat, ks: seq<Tree>)
    decreases ks, 2
  {
    if ks == [] then i == j
    else exists m :: KidAt(d, i, m, ks[0]) && KidsAt(d, m, j, ks[1..])
  }

  // ---- Writing -------------------------------------------------------------------------------

  /** A tree with the number of NOPs that precede each of its tokens. */
  datatype Padded = Padded(nops: nat, name: seq<byte>, props: seq<PaddedProp>, kids: seq<Padded>, endNops: nat)

  datatype PaddedProp = PaddedProp(nops: nat, prop: Prop)

  function Plain(t: Padded): Tree
    decreases t, 0
  {
    Tree(t.name, PlainProps(t.props), PlainKids(t.kids))
  }

  function PlainProps(ps: seq<PaddedProp>): (r: seq<Prop>) {
    if ps == [] then [] else [ps[0].prop] + PlainProps(ps[1..])
  }

  function PlainKids(ks: seq<Padded>): seq<Tree>
    decreases ks, 1
  {
    if ks == [] then [] else [Plain(ks[0])] + PlainKids(ks[1..])
  }

  /** Names have no NUL, and lengths and offsets fit in a word. */
  predicate Writable(t: Padded)
    decreases t, 0
  {
    && 0 !in t.name
    && (forall p | p in t.props :: |p.prop.value| < 0x1_0000_0000 && p.prop.nameoff < 0x1_0000_0000)
    && WritableKids(t.kids)
  }

  predicate WritableKids(ks: seq<Padded>)
    decreases ks, 1
  {
    if ks == [] then true else Writable(ks[0]) && WritableKids(ks[1..])
  }

  function WordBytes(v: nat): (w: seq<byte>)
    requires v < 0x1_0000_0000
    ensures |w| == 4 && Word(w, 0) == v
  {
    var v1 := v / 0x100;
    var v2 := v1 / 0x100;
    var v3 := v2 / 0x100;
    [v3 as byte, (v2 % 0x100) as byte, (v1 % 0x100) as byte, (v % 0x100) as byte]
  }

  function Nops(n: nat): (s: seq<byte>)
    ensures |s| == 4 * n
  {
    if n == 0 then [] else WordBytes(NOP) + Nops(n - 1)
  }

  /** A byte string filled up with zeros to whole words. */
  function Fill(s: seq<byte>): (r: seq<byte>)
    ensures |r| == AlignUp(|s|) && r[..|s|] == s
  {
    s + seq(AlignUp(|s|) - |s|, _ => 0)
  }

  function WriteProp(p: PaddedProp): (s: seq<byte>)
    requires |p.prop.value| < 0x1_0000_0000 && p.prop.nameoff < 0x1_0000_0000
  {
    Nops(p.nops) + WordBytes(PROP) + WordBytes(|p.prop.value|) + WordBytes(p.prop.nameoff) + Fill(p.prop.value)
  }

  function WriteProps(ps: seq<PaddedProp>): (s: seq<byte>)
    requires forall p | p in ps :: |p.prop.value| < 0x1_0000_0000 && p.prop.nameoff < 0x1_0000_0000
  {
    if ps == [] then [] else WriteProp(ps[0]) + WriteProps(ps[1..])
  }

  /** The body of a node. */
  function WriteBody(t: Padded): (s: seq<byte>)
    requires Writable(t)
    decreases t, 0
  {
    WriteProps(t.props) + WriteKids(t.kids) + Nops(t.endNops) + WordBytes(END_NODE)
  }

  function WriteKid(t: Padded): (s: seq<byte>)
    requires Writable(t)
    decreases t, 1
  {
    Nops(t.nops) + WordBytes(BEGIN_NODE) + Fill(t.name + [0]) + WriteBody(t)
  }

  function WriteKids(ks: seq<Padded>): (s: seq<byte>)
    requires WritableKids(ks)
    decreases ks, 2
  {
    if ks == [] then [] else WriteKid(ks[0]) + WriteKids(ks[1..])
  }

  // ---- Everything written is whole words -----------------------------------------------------

  lemma Joined(x: seq<byte>, y: seq<byte>)
    requires |x| % 4 == 0 && |y| % 4 == 0
    ensures |x + y| % 4 == 0
  {
  }

  lemma FillWords(s: seq<byte>)
    ensures |Fill(s)| % 4 == 0
  {
  }

  lemma PropWords(p: PaddedProp)
    requires |p.prop.value| < 0x1_0000_0000 && p.prop.nameoff < 0x1_0000_0000
    ensures |WriteProp(p)| % 4 == 0
  {
    hide Fill, WordBytes, Nops;
    FillWords(p.prop.value);
    var x := Nops(p.nops) + WordBytes(PROP) + WordBytes(|p.prop.value|) + WordBytes(p.prop.nameoff);
    assert |x| == 4 * (p.nops + 3);
    Joined(x, Fill(p.prop.value));
  }

  lemma {:induction false} PropsWords(ps: seq<PaddedProp>)
    requires forall p | p in ps :: |p.prop.value| < 0x1_0000_0000 && p.prop.nameoff < 0x1_0000_0000
    ensures |WriteProps(ps)| % 4 == 0
  {
    hide WriteProp;
    if ps != [] {
      PropWords(ps[0]);
      PropsWords(ps[1..]);
      Joined(WriteProp(ps[0]), WriteProps(ps[1..]));
    }
  }

  lemma {:induction false} BodyWords(t: Padded)
    requires Writable(t)
    ensures |WriteBody(t)| % 4 == 0
    decreases t, 0
  {
    hide WriteProps, WriteKids, Nops, WordBytes, WritableKids;
    PropsWords(t.props);
    KidsWords(t.kids);
    Joined(WriteProps(t.props), WriteKids(t.kids));
    var end := Nops(t.endNops) + WordBytes(END_NODE);
    assert |end| == 4 * (t.endNops + 1);
    Joined(WriteProps(t.props) + WriteKids(t.kids), end);
    assert WriteBody(t) == WriteProps(t.props) + WriteKids(t.kids) + end;
  }

  lemma {:induction false} KidWords(t: Padded)
    requires Writable(t)
    ensures |WriteKid(t)| % 4 == 0
    decreases t, 1
  {
    hide Fill, Nops, WordBytes, WriteBody;
    BodyWords(t);
    FillWords(t.name + [0]);
    var begin := Nops(t.nops) + WordBytes(BEGIN_NODE);
    assert |begin| == 4 * (t.nops + 1);
    Joined(begin, Fill(t.name + [0]));
    Joined(begin + Fill(t.name + [0]), WriteBody(t));
  }

  lemma {:induction false} KidsWords(ks: seq<Padded>)
    requires WritableKids(ks)
    ensures |WriteKids(ks)| % 4 == 0
    decreases ks, 2
  {
    hide WriteKid, Writable;
    if ks != [] {
      KidWords(ks[0]);
      KidsWords(ks[1..]);
      Joined(WriteKid(ks[0]), WriteKids(ks[1..]));
    }
  }

  // ---- Whatever is written is there ----------------------------------------------------------

  /** The bytes `s` are at position `i`. */
  predicate Here(d: seq<byte>, i: nat, s: seq<byte>) {
    i + |s| <= |d| && d[i..i + |s|] == s
  }

  lemma HereSplit(d: seq<byte>, i: nat, x: seq<byte>, y: seq<byte>)
    requires Here(d, i, x + y)
    ensures Here(d, i, x) && Here(d, i + |x|, y)
  {
    var s := x + y;
    assert d[i..i + |x|] == s[..|x|] == x;
    assert d[i + |x|..i + |s|] == s[|x|..] == y;
  }

  lemma WordHere(d: seq<byte>, i: nat, v: nat)
    requires v < 0x1_0000_0000 && Here(d, i, WordBytes(v))
    ensures Word(d, i) == v
  {
    var w := WordBytes(v);
    assert forall k | 0 <= k < 4 :: d[i + k] == d[i..i + 4][k] == w[k];
  }

  lemma {:induction false} NopsHere(d: seq<byte>, i: nat, n: nat)
    requires Here(d, i, Nops(n))
    ensures SkipNops(d, i) == SkipNops(d, i + 4 * n)
    decreases n
  {
    if n > 0 {
      HereSplit(d, i, WordBytes(NOP), Nops(n - 1));
      WordHere(d, i, NOP);
      NopsHere(d, i + 4, n - 1);
    }
  }

  lemma TokenHere(d: seq<byte>, i: nat, n: nat, t: nat)
    requires t < 0x1_0000_0000 && t != NOP && Here(d, i, Nops(n) + WordBytes(t))
    ensures TokenAt(d, i, i + 4 * n + 4, t)
  {
    HereSplit(d, i, Nops(n), WordBytes(t));
    NopsHere(d, i, n);
    WordHere(d, i + 4 * n, t);
  }

  lemma FillHere(d: seq<byte>, i: nat, s: seq<byte>)
    requires Here(d, i, Fill(s)) && i % 4 == 0
    ensures i + |s| <= |d| && d[i..i + |s|] == s && AlignUp(i + |s|) == i + |Fill(s)| <= |d|
  {
    assert d[i..i + |s|] == d[i..i + |Fill(s)|][..|s|];
  }

  lemma PropHere(d: seq<byte>, i: nat, p: PaddedProp)
    requires |p.prop.value| < 0x1_0000_0000 && p.prop.nameoff < 0x1_0000_0000
    requires Here(d, i, WriteProp(p)) && i % 4 == 0
    ensures PropAt(d, i, i + |WriteProp(p)|, p.prop)
  {
    hide Word, SkipNops, Fill, AlignUp, WordBytes, Nops, TokenAt;
    var token, len, off := Nops(p.nops) + WordBytes(PROP), WordBytes(|p.prop.value|), WordBytes(p.prop.nameoff);
    HereSplit(d, i, token + len + off, Fill(p.prop.value));
    HereSplit(d, i, token + len, off);
    HereSplit(d, i, token, len);
    TokenHere(d, i, p.nops, PROP);
    TokenEnd(d, i, i + |token|, PROP);
    WordHere(d, i + |token|, |p.prop.value|);
    WordHere(d, i + |token| + 4, p.prop.nameoff);
    FillHere(d, i + |token| + 8, p.prop.value);
  }

  lemma TokenEnd(d: seq<byte>, i: nat, j: nat, t: nat)
    requires TokenAt(d, i, j, t)
    ensures j == SkipNops(d, i) + 4 <= |d|
  {
  }

  lemma {:induction false} PropsHere(d: seq<byte>, i: nat, ps: seq<PaddedProp>)
    requires forall p | p in ps :: |p.prop.value| < 0x1_0000_0000 && p.prop.nameoff < 0x1_0000_0000
    requires Here(d, i, WriteProps(ps)) && i % 4 == 0
    ensures PropsAt(d, i, i + |WriteProps(ps)|, PlainProps(ps))
    decreases |ps|
  {
    hide PropAt, WriteProp, Here;
    if ps != [] {
      HereSplit(d, i, WriteProp(ps[0]), WriteProps(ps[1..]));
      PropHere(d, i, ps[0]);
      PropWords(ps[0]);
      PropsHere(d, i + |WriteProp(ps[0])|, ps[1..]);
      assert PlainProps(ps)[1..] == PlainProps(ps[1..]);
    }
  }

  lemma NameHere(d: seq<byte>, i: nat, s: seq<byte>)
    requires Here(d, i, Fill(s + [0])) && i % 4 == 0 && 0 !in s
    ensures StringAt(d, i, i + |Fill(s + [0])|, s)
  {
    hide Fill, AlignUp;
    FillHere(d, i, s + [0]);
    assert d[i..i + |s|] == (s + [0])[..|s|] == s;
    assert d[i + |s|] == d[i..i + |s| + 1][|s|];
  }

  /** Every tree, written with any number of NOPs before any token, is found again in the bytes. */
  lemma {:induction false} BodyHere(d: seq<byte>, i: nat, t: Padded)
    requires Writable(t) && Here(d, i, WriteBody(t)) && i % 4 == 0
    ensures NodeAt(d, i, i + |WriteBody(t)|, Plain(t))
    decreases t, 0
  {
    hide PropsAt, KidsAt, TokenAt, Here, Nops, WordBytes, WriteProps, WriteKids, PlainProps, PlainKids, WritableKids;
    var ps, ks, end := WriteProps(t.props), WriteKids(t.kids), Nops(t.endNops) + WordBytes(END_NODE);
    assert WriteBody(t) == ps + ks + end;
    HereSplit(d, i, ps + ks, end);
    HereSplit(d, i, ps, ks);
    PropsHere(d, i, t.props);
    PropsWords(t.props);
    KidsHere(d, i + |ps|, t.kids);
    TokenHere(d, i + |ps| + |ks|, t.endNops, END_NODE);
  }

  lemma {:induction false} KidHere(d: seq<byte>, i: nat, t: Padded)
    requires Writable(t) && Here(d, i, WriteKid(t)) && i % 4 == 0
    ensures KidAt(d, i, i + |WriteKid(t)|, Plain(t))
    decreases t, 1
  {
    hide NodeAt, TokenAt, Here, Nops, WordBytes, WriteBody, Fill, StringAt;
    var token, name := Nops(t.nops) + WordBytes(BEGIN_NODE), Fill(t.name + [0]);
    HereSplit(d, i, token + name, WriteBody(t));
    HereSplit(d, i, token, name);
    TokenHere(d, i, t.nops, BEGIN_NODE);
    NameHere(d, i + |token|, t.name);
    FillWords(t.name + [0]);
    BodyHere(d, i + |token| + |name|, t);
  }

  lemma {:induction false} KidsHere(d: seq<byte>, i: nat, ks: seq<Padded>)
    requires WritableKids(ks) && Here(d, i, WriteKids(ks)) && i % 4 == 0
    ensures KidsAt(d, i, i + |WriteKids(ks)|, PlainKids(ks))
    decreases ks, 2
  {
    hide KidAt, Here, WriteKid, Writable, Plain;
    if ks != [] {
      HereSplit(d, i, WriteKid(ks[0]), WriteKids(ks[1..]));
      KidHere(d, i, ks[0]);
      KidWords(ks[0]);
      KidsHere(d, i + |WriteKid(ks[0])|, ks[1..]);
      assert PlainKids(ks)[1..] == PlainKids(ks[1..]);
    }
  }
}
