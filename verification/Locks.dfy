/** The VM locks. A pCPU takes one lock at a time, or two at once with `lock_both`, which starts with the
    lock at the lower address. */
module Locks {

  type Lock = nat // its address

  /** What a pCPU is doing: nothing, waiting for a lock, or waiting for the second of two. */
  datatype Cpu = Cpu(held: set<Lock>, waits: Want)

  datatype Want = Nothing | One(l: Lock) | Both(first: Lock, second: Lock)

  /** The lock a pCPU is spinning on. */
  function Target(c: Cpu): Lock
    requires !c.waits.Nothing?
  {
    if c.waits.One? then c.waits.l else c.waits.first
  }

  type State = map<nat, Cpu>

  datatype Event =
    | WantOne(c: nat, l: Lock)               // `lock`, while holding no VM lock
    | WantBoth(c: nat, l: Lock, r: Lock)     // `lock_both`, while holding no VM lock
    | Acquire(c: nat)                        // the compare-exchange succeeds
    | Release(c: nat, l: Lock)               // `unlock`

  predicate Taken(s: State, l: Lock) {
    exists c :: c in s && l in s[c].held
  }

  ghost function Step(s: State, e: Event): State {
    if e.c !in s then s
    else
      var cpu := s[e.c];
      match e
      case WantOne(c, l) => if cpu.waits.Nothing? && cpu.held == {} then s[c := cpu.(waits := One(l))] else s
      case WantBoth(c, l, r) =>
        if cpu.waits.Nothing? && cpu.held == {} then s[c := cpu.(waits := if l < r then Both(l, r) else Both(r, l))]
          else s
      case Acquire(c) =>
        if cpu.waits.Nothing? || Taken(s, Target(cpu)) then s
        else s[c := Cpu(cpu.held + {Target(cpu)}, if cpu.waits.Both? then One(cpu.waits.second) else Nothing)]
      case Release(c, l) => if cpu.waits.Nothing? then s[c := cpu.(held := cpu.held - {l})] else s
  }

  /** Callers reject the reflexive case before they call `lock_both`. */
  predicate Careful(e: Event) {
    e.WantBoth? ==> e.l != e.r
  }

  /** Whoever waits holds only locks at lower addresses, and no lock is held twice. */
  ghost predicate Inv(s: State) {
    && (forall c | c in s && !s[c].waits.Nothing? :: Ordered(s[c]))
    && (forall c, d, l | c in s && d in s && c != d && l in s[c].held :: l !in s[d].held)
  }

  predicate Ordered(c: Cpu)
    requires !c.waits.Nothing?
  {
    && (forall l | l in c.held :: l < Target(c))
    && (c.waits.Both? ==> c.held == {} && c.waits.first < c.waits.second)
  }

  predicate Initial(s: State) {
    forall c | c in s :: s[c] == Cpu({}, Nothing)
  }

  lemma StepKeepsInv(s: State, e: Event)
    requires Inv(s) && Careful(e)
    ensures Inv(Step(s, e))
  {
    if e.c in s && e.Acquire? && !s[e.c].waits.Nothing? {
      assert Ordered(s[e.c]);
    }
  }

  // ---- Runs ----------------------------------------------------------------------------------

  ghost predicate Run(run: seq<State>) {
    |run| > 0 && Initial(run[0]) && forall i | 0 <= i < |run| - 1 :: StepAt(run, i)
  }

  ghost predicate StepAt(run: seq<State>, i: nat)
    requires i + 1 < |run|
  {
    exists e :: Careful(e) && run[i + 1] == Step(run[i], e)
  }

  lemma {:induction false} RunInv(run: seq<State>, i: nat)
    requires Run(run) && i < |run|
    ensures Inv(run[i])
    decreases i
  {
    hide Step;
    if i > 0 {
      RunInv(run, i - 1);
      var j := i - 1;
      assert StepAt(run, j);
      var e :| Careful(e) && run[j + 1] == Step(run[j], e);
      StepKeepsInv(run[j], e);
    }
  }

  /** `c` spins on a lock that `d` holds. */
  predicate WaitsFor(s: State, c: nat, d: nat) {
    c in s && d in s && !s[c].waits.Nothing? && Target(s[c]) in s[d].held
  }

  /** Each pCPU waits for the next one, and the last for the first. */
  predicate Cycle(s: State, cs: seq<nat>) {
    cs != [] && forall i | 0 <= i < |cs| :: Link(s, cs, i)
  }

  predicate Link(s: State, cs: seq<nat>, i: nat)
    requires i < |cs|
  {
    WaitsFor(s, cs[i], if i + 1 < |cs| then cs[i + 1] else cs[0])
  }

  lemma Climbs(s: State, c: nat, d: nat)
    requires Inv(s) && WaitsFor(s, c, d) && !s[d].waits.Nothing?
    ensures Target(s[c]) < Target(s[d])
  {
    assert Ordered(s[d]);
  }

  lemma {:induction false} CycleClimbs(s: State, cs: seq<nat>, i: nat)
    requires Inv(s) && Cycle(s, cs) && i < |cs|
    ensures WaitsFor(s, cs[0], if 1 < |cs| then cs[1] else cs[0])
    ensures cs[i] in s && !s[cs[i]].waits.Nothing? && Target(s[cs[0]]) <= Target(s[cs[i]])
  {
    assert Link(s, cs, i) && Link(s, cs, 0);
    if i > 0 {
      CycleClimbs(s, cs, i - 1);
      var j := i - 1;
      assert Link(s, cs, j);
      Climbs(s, cs[j], cs[i]);
    }
  }

  /** In every reachable state there is no cycle of pCPUs waiting for each other. */
  lemma NoDeadlock(run: seq<State>, i: nat, cs: seq<nat>)
    requires Run(run) && i < |run|
    ensures !Cycle(run[i], cs)
  {
    RunInv(run, i);
    var s := run[i];
    if Cycle(s, cs) {
      var last := |cs| - 1;
      CycleClimbs(s, cs, last);
      assert Link(s, cs, last);
      Climbs(s, cs[last], cs[0]);
    }
  }

  /** Taking the same lock twice would block the pCPU on itself. */
  lemma ReflexiveBlocks(c: nat, l: Lock)
    ensures var s := map[c := Cpu({}, Nothing)];
            var s' := Step(Step(s, WantBoth(c, l, l)), Acquire(c));
            WaitsFor(s', c, c)
  {
    var s := map[c := Cpu({}, Nothing)];
    var s1 := Step(s, WantBoth(c, l, l));
    assert s1 == map[c := Cpu({}, Both(l, l))];
    assert !Taken(s1, l);
  }
}
