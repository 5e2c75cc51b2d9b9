/** The intrusive singly linked list of `slist.rs`: the link of each element is stored in the
    element itself, at its address, and 0 is the null pointer. */
module SList {
  import opened Common

  ghost function First(s: seq<nat>, i: nat): nat {
    if i < |s| then s[i] else 0
  }

  /** Following `next` from `head` visits exactly the elements of `s`, then null. */
  ghost predicate Linked(head: nat, next: map<nat, nat>, s: seq<nat>) {
    && head == First(s, 0)
    && Distinct(s)
    && forall i | 0 <= i < |s| :: s[i] != 0 && s[i] in next && next[s[i]] == First(s, i + 1)
  }

  /** Redirecting the predecessor's link, or the head, past element `k` unlinks exactly it. */
  lemma Unlink(head: nat, next: map<nat, nat>, s: seq<nat>, k: nat)
    requires Linked(head, next, s) && k < |s|
    ensures k == 0 ==> Linked(next[s[0]], next, Without(s, 0))
    ensures k > 0 ==> Linked(head, next[s[k - 1] := next[s[k]]], Without(s, k))
  {
    var t := Without(s, k);
    forall i | 0 <= i < |t| ensures t[i] == s[if i < k then i else i + 1] {
    }
    if k > 0 {
      var next' := next[s[k - 1] := next[s[k]]];
      forall i | 0 <= i < |t| ensures t[i] != 0 && t[i] in next' && next'[t[i]] == First(t, i + 1) {
      }
    }
  }

  class List {
    var head: nat
    var next: map<nat, nat>
    ghost var elems: seq<nat>

    ghost predicate Valid()
      reads this
    {
      Linked(head, next, elems)
    }

    constructor ()
      ensures Valid() && elems == []
    {
      head, next, elems := 0, map[], [];
    }

    method Push(x: nat)
      requires Valid() && x != 0 && x !in elems
      modifies this
      ensures Valid() && elems == [x] + old(elems)
    {
      next := next[x := head];
      head := x;
      elems := [x] + elems;
    }

    method Pop() returns (r: Option<nat>)
      requires Valid()
      modifies this
      ensures Valid()
      ensures r.None? <==> old(elems) == []
      ensures r.None? ==> elems == old(elems)
      ensures r.Some? ==> old(elems) == [r.value] + elems
    {
      if head == 0 {
        return None;
      }
      r := Some(head);
      head := next[head];
      elems := elems[1..];
    }

    /** Unlinks and returns the first element accepted by `cond`. */
    method PopIf(cond: nat -> bool) returns (r: Option<nat>, ghost k: nat)
      requires Valid()
      modifies this
      ensures Valid() && k <= |old(elems)|
      ensures forall j | 0 <= j < k :: !cond(old(elems)[j])
      ensures r.None? <==> k == |old(elems)|
      ensures r.None? ==> elems == old(elems)
      ensures r.Some? ==> r.value == old(elems)[k] && cond(r.value)
      ensures r.Some? ==> elems == Without(old(elems), k)
    {
      var prev, curr := 0, head;
      k := 0;
      while curr != 0
        invariant k <= |elems| && curr == First(elems, k)
        invariant prev == if k == 0 then 0 else elems[k - 1]
        invariant forall j | 0 <= j < k :: !cond(elems[j])
        invariant Valid() && elems == old(elems)
        decreases |elems| - k
      {
        if cond(curr) {
          Unlink(head, next, elems, k);
          if prev == 0 {
            head := next[curr];
          } else {
            next := next[prev := next[curr]];
          }
          elems := Without(elems, k);
          return Some(curr), k;
        }
        prev, curr, k := curr, next[curr], k + 1;
      }
      r := None;
    }
  }
}
