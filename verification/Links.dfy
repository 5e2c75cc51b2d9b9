/** The intrusive circular doubly linked list of `list.rs`. Every list is a ring through its head; an
    entry that is in no list is a ring of its own. */
module Links {
  import opened Common

  /** The node at position `i` of the ring with head `l` and entries `s`; position 0 and position
      `|s| + 1` are the head. */
  function At<Node>(l: Node, s: seq<Node>, i: nat): Node
    requires i <= |s| + 1
  {
    if i == 0 || i == |s| + 1 then l else s[i - 1]
  }

  ghost function Nodes<Node>(l: Node, s: seq<Node>): set<Node> {
    {l} + set n | n in s
  }

  ghost predicate Separate<Node>(l: Node, s: seq<Node>) {
    l !in s && Distinct(s)
  }

  /** Following `next` visits the entries in order and comes back to the head; `prev` goes the other way. */
  ghost predicate Ring<Node>(next: map<Node, Node>, prev: map<Node, Node>, l: Node, s: seq<Node>) {
    && Separate(l, s) && Nodes(l, s) <= next.Keys && Nodes(l, s) <= prev.Keys
    && forall i {:trigger At(l, s, i)} | 0 <= i <= |s| :: Linked(next, prev, At(l, s, i), At(l, s, i + 1))
  }

  ghost predicate Linked<Node>(next: map<Node, Node>, prev: map<Node, Node>, a: Node, b: Node) {
    a in next && next[a] == b && b in prev && prev[b] == a
  }

  /** Every node is in exactly one ring. */
  ghost predicate Rings<Node>(next: map<Node, Node>, prev: map<Node, Node>, rings: map<Node, seq<Node>>) {
    && (forall l | l in rings :: Ring(next, prev, l, rings[l]))
    && (forall l, m | l in rings && m in rings && l != m :: Nodes(l, rings[l]) !! Nodes(m, rings[m]))
  }

  lemma OtherRing<Node>(next: map<Node, Node>, prev: map<Node, Node>, next': map<Node, Node>, prev': map<Node, Node>,
                        l: Node, s: seq<Node>)
    requires Ring(next, prev, l, s) && next.Keys <= next'.Keys && prev.Keys <= prev'.Keys
    requires forall n | n in Nodes(l, s) :: next'[n] == next[n] && prev'[n] == prev[n]
    ensures Ring(next', prev', l, s)
  {
    forall i {:trigger At(l, s, i)} | 0 <= i <= |s| ensures Linked(next', prev', At(l, s, i), At(l, s, i + 1)) {
      assert Linked(next, prev, At(l, s, i), At(l, s, i + 1));
      assert At(l, s, i) in Nodes(l, s) && At(l, s, i + 1) in Nodes(l, s);
    }
  }

  lemma Neighbours<Node>(next: map<Node, Node>, prev: map<Node, Node>, l: Node, s: seq<Node>, i: nat)
    requires Ring(next, prev, l, s) && i <= |s|
    ensures At(l, s, i) in next && next[At(l, s, i)] == At(l, s, i + 1)
    ensures At(l, s, i + 1) in prev && prev[At(l, s, i + 1)] == At(l, s, i)
  {
    assert Linked(next, prev, At(l, s, i), At(l, s, i + 1));
  }

  lemma AppendRing<Node>(next: map<Node, Node>, prev: map<Node, Node>, l: Node, s: seq<Node>, e: Node, last: Node)
    requires Ring(next, prev, l, s) && e !in Nodes(l, s) && l in prev && last == prev[l]
    ensures Ring(next[e := l][last := e], prev[e := last][l := e], l, s + [e])
    ensures last in Nodes(l, s)
  {
    var s', next', prev' := s + [e], next[e := l][last := e], prev[e := last][l := e];
    Neighbours(next, prev, l, s, |s|);
    assert last == At(l, s, |s|);
    forall i {:trigger At(l, s', i)} | 0 <= i <= |s'| ensures Linked(next', prev', At(l, s', i), At(l, s', i + 1)) {
      if i < |s| {
        Neighbours(next, prev, l, s, i);
        assert At(l, s', i) == At(l, s, i) && At(l, s', i + 1) == At(l, s, i + 1) == s[i];
        assert i > 0 ==> At(l, s, i) == s[i - 1];
        assert |s| > 0 && last == s[|s| - 1];
      }
    }
  }

  /** Entry `k` is linked to the nodes on both sides of it. */
  lemma BothSides<Node>(next: map<Node, Node>, prev: map<Node, Node>, l: Node, s: seq<Node>, k: nat)
    requires Ring(next, prev, l, s) && k < |s|
    ensures s[k] in next && s[k] in prev && prev[s[k]] == At(l, s, k) && next[s[k]] == At(l, s, k + 2)
    ensures At(l, s, k) in Nodes(l, s) && At(l, s, k + 2) in Nodes(l, s)
  {
    Neighbours(next, prev, l, s, k);
    Neighbours(next, prev, l, s, k + 1);
    assert At(l, s, k + 1) == s[k];
  }

  /** Each link of the ring without entry `k` is in place. */
  lemma RemoveLink<Node>(next: map<Node, Node>, prev: map<Node, Node>, l: Node, s: seq<Node>, k: nat, i: nat)
    requires Ring(next, prev, l, s) && k < |s| && i < |s|
    ensures var e, s', a, b := s[k], Without(s, k), At(l, s, k), At(l, s, k + 2);
            Linked(next[a := b][e := e], prev[b := a][e := e], At(l, s', i), At(l, s', i + 1))
  {
    hide Nodes;
    var s' := Without(s, k);
    assert |s'| == |s| - 1;
    if i < k {
      Neighbours(next, prev, l, s, i);
      assert At(l, s', i) == At(l, s, i) && At(l, s', i + 1) == At(l, s, i + 1);
    } else if i == k {
      assert At(l, s', i) == At(l, s, k) && At(l, s', i + 1) == At(l, s, k + 2);
    } else {
      Neighbours(next, prev, l, s, i + 1);
      assert At(l, s', i) == At(l, s, i + 1) && At(l, s', i + 1) == At(l, s, i + 2);
    }
  }

  lemma RemoveRing<Node>(next: map<Node, Node>, prev: map<Node, Node>, l: Node, s: seq<Node>, k: nat)
    requires Ring(next, prev, l, s) && k < |s|
    ensures s[k] in next && s[k] in prev && prev[s[k]] in Nodes(l, s) && next[s[k]] in Nodes(l, s)
    ensures var e := s[k];
            Ring(next[prev[e] := next[e]][e := e], prev[next[e] := prev[e]][e := e], l, Without(s, k))
  {
    hide Distinct, Separate, At, Linked;
    var e, s' := s[k], Without(s, k);
    BothSides(next, prev, l, s, k);
    WithoutSeparate(l, s, k);
    WithoutNodes(l, s, k);
    var a, b := At(l, s, k), At(l, s, k + 2);
    var next', prev' := next[a := b][e := e], prev[b := a][e := e];
    forall i {:trigger At(l, s', i)} | 0 <= i <= |s'| ensures Linked(next', prev', At(l, s', i), At(l, s', i + 1)) {
      RemoveLink(next, prev, l, s, k, i);
    }
  }

  lemma WithoutSeparate<Node>(l: Node, s: seq<Node>, k: nat)
    requires Separate(l, s) && k < |s|
    ensures Separate(l, Without(s, k))
  {
  }

  lemma WithoutNodes<Node>(l: Node, s: seq<Node>, k: nat)
    requires Separate(l, s) && k < |s|
    ensures Nodes(l, Without(s, k)) == Nodes(l, s) - {s[k]}
  {
    var s' := Without(s, k);
    forall n | n in s && n != s[k] ensures n in s' {
      var i :| 0 <= i < |s| && s[i] == n;
      assert s'[if i < k then i else i - 1] == n;
    }
  }

  /** Taking entry `k` out of the ring of `l` leaves all other rings alone. */
  lemma RemoveRings<Node>(next: map<Node, Node>, prev: map<Node, Node>, rings: map<Node, seq<Node>>, l: Node, k: nat)
    requires Rings(next, prev, rings) && l in rings && k < |rings[l]|
    ensures var e := rings[l][k];
            && e in next && e in prev && prev[e] != e
            && Rings(next[prev[e] := next[e]][e := e], prev[next[e] := prev[e]][e := e],
                     rings[l := Without(rings[l], k)][e := []])
  {
    hide At, Linked;
    var s := rings[l];
    var e := s[k];
    assert Ring(next, prev, l, s);
    RemoveRing(next, prev, l, s, k);
    WithoutNodes(l, s, k);
    Neighbours(next, prev, l, s, k);
    NotItsOwn(l, s, k);
    var next', prev', rings' := next[prev[e] := next[e]][e := e], prev[next[e] := prev[e]][e := e],
        rings[l := Without(s, k)][e := []];
    forall m | m in rings' ensures Ring(next', prev', m, rings'[m]) {
      if m == e { Alone(next', prev', e); }
      else if m != l { OtherRing(next, prev, next', prev', m, rings[m]); }
    }
  }

  lemma Alone<Node>(next: map<Node, Node>, prev: map<Node, Node>, e: Node)
    requires e in next && e in prev && next[e] == e && prev[e] == e
    ensures Ring(next, prev, e, [])
  {
  }

  lemma NotItsOwn<Node>(l: Node, s: seq<Node>, k: nat)
    requires Separate(l, s) && k < |s|
    ensures At(l, s, k + 1) == s[k] && At(l, s, k) != s[k]
  {
  }

  class Lists<Node(==)> {
    var next: map<Node, Node>
    var prev: map<Node, Node>

    /** The entries of each ring by its head. */
    ghost var rings: map<Node, seq<Node>>

    ghost predicate Valid()
      reads this
    {
      Rings(next, prev, rings)
    }

    constructor ()
      ensures Valid() && rings == map[]
    {
      next, prev, rings := map[], map[], map[];
    }

    /** `list_init` of a node that is in no ring yet. */
    method Init(e: Node)
      requires Valid() && forall l | l in rings :: e !in Nodes(l, rings[l])
      modifies this
      ensures Valid() && rings == old(rings)[e := []]
    {
      next, prev := next[e := e], prev[e := e];
      rings := rings[e := []];
      forall l | l in rings ensures Ring(next, prev, l, rings[l]) {
        if l != e { OtherRing(old(next), old(prev), next, prev, l, rings[l]); }
      }
    }

    /** Adds a free entry at the end of a list. */
    method Append(l: Node, e: Node)
      requires Valid() && l in rings && e in rings && l != e && rings[e] == []
      modifies this
      ensures Valid() && rings == (old(rings) - {e})[l := old(rings[l]) + [e]]
    {
      ghost var s := rings[l];
      assert Ring(next, prev, l, s) && e !in Nodes(l, s) by { assert Nodes(e, rings[e]) !! Nodes(l, rings[l]); }
      var last := prev[l];
      AppendRing(next, prev, l, s, e, last);
      next, prev := next[e := l], prev[e := last];
      prev := prev[next[e] := e];
      next := next[prev[e] := e];
      rings := (rings - {e})[l := s + [e]];
      forall m | m in rings ensures Ring(next, prev, m, rings[m]) {
        if m != l { OtherRing(old(next), old(prev), next, prev, m, rings[m]); }
      }
    }

    /** Is this the head of an empty list, or an entry in no list? */
    method Empty(n: Node, ghost l: Node) returns (empty: bool)
      requires Valid() && l in rings && n in Nodes(l, rings[l])
      ensures empty <==> n == l && rings[l] == []
    {
      ghost var s := rings[l];
      assert Ring(next, prev, l, s);
      Neighbours(next, prev, l, s, 0);
      if n != l {
        ghost var k :| 0 <= k < |s| && s[k] == n;
        Neighbours(next, prev, l, s, k + 1);
      }
      empty := next[n] == n;
    }

    /** Takes an entry out of its list. */
    method Remove(e: Node, ghost l: Node, ghost k: nat)
      requires Valid() && l in rings && k < |rings[l]| && rings[l][k] == e
      modifies this
      ensures Valid() && rings == old(rings)[l := Without(old(rings[l]), k)][e := []]
    {
      hide Ring;
      RemoveRings(next, prev, rings, l, k);
      next := next[prev[e] := next[e]];
      prev := prev[next[e] := prev[e]];
      next, prev := next[e := e], prev[e := e];
      rings := rings[l := Without(rings[l], k)][e := []];
    }

    /** Takes the first entry out of a non-empty list. */
    method PopFront(l: Node) returns (e: Node)
      requires Valid() && l in rings && rings[l] != []
      modifies this
      ensures e == old(rings[l])[0]
      ensures Valid() && rings == old(rings)[l := old(rings[l])[1..]][e := []]
    {
      assert Ring(next, prev, l, rings[l]);
      Neighbours(next, prev, l, rings[l], 0);
      e := next[l];
      ghost var s := rings[l];
      Remove(e, l, 0);
      assert Without(s, 0) == s[1..];
    }
  }
}
