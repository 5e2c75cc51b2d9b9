/** Running secondary vCPUs on physical CPUs: every pCPU takes the steps of `vcpu_run`, of the calls that
    switch back to the primary VM, and of the context switch that finally releases the vCPU. */
module Scheduling {
  datatype Status = Off | Ready | BlockedMailbox | BlockedInterrupt | Aborted

  datatype VCpuId = VCpuId(vm: nat, index: nat)

  /** A secondary vCPU: its state, the pCPU it was last given, and its execution lock. */
  datatype VCpu = VCpu(status: Status, cpu: nat, locked: bool)

  /** Where a pCPU is: in its own primary vCPU, inside `vcpu_prepare_run` with the lock of a vCPU before or
      after looking at the abort flag and the state, executing the vCPU, or saving its registers. */
  datatype Place = AtPrimary | Locked(v: VCpuId) | Checked(v: VCpuId) | Running(v: VCpuId) | Saving(v: VCpuId)

  datatype State = State(places: map<nat, Place>, vcpus: map<VCpuId, VCpu>, aborting: set<nat>)

  datatype Event =
    | TryLock(c: nat, v: VCpuId)
    | Check(c: nat)
    | Decide(c: nat, wakes: bool)      // is there a message, an interrupt or an expired timer?
    | Switch(c: nat, status: Status)   // preempted, yielding, blocking, waking another or turning off
    | Abort(c: nat)
    | Saved(c: nat)
    | Start(v: VCpuId)                 // another vCPU of the VM turns this one on

  predicate Blocked(s: Status) {
    s.BlockedMailbox? || s.BlockedInterrupt?
  }

  function Unlock(s: State, c: nat, v: VCpuId, status: Status): State
    requires v in s.vcpus
  {
    s.(places := s.places[c := AtPrimary], vcpus := s.vcpus[v := s.vcpus[v].(status := status, locked := false)])
  }

  /** The effect of one step; a step that is not enabled changes nothing. */
  function Step(s: State, e: Event): State {
    match e
    case TryLock(c, v) =>
      if c in s.places && s.places[c].AtPrimary? && v in s.vcpus && !s.vcpus[v].locked then
        s.(places := s.places[c := Locked(v)], vcpus := s.vcpus[v := s.vcpus[v].(locked := true)])
      else s
    case Check(c) =>
      if c in s.places && s.places[c].Locked? && s.places[c].v in s.vcpus then
        var v := s.places[c].v;
        if v.vm in s.aborting then Unlock(s, c, v, Aborted)
        else if s.vcpus[v].status.Off? || s.vcpus[v].status.Aborted? then Unlock(s, c, v, s.vcpus[v].status)
        else s.(places := s.places[c := Checked(v)])
      else s
    case Decide(c, wakes) =>
      if c in s.places && s.places[c].Checked? && s.places[c].v in s.vcpus then
        var v := s.places[c].v;
        if Blocked(s.vcpus[v].status) && !wakes then Unlock(s, c, v, s.vcpus[v].status)
        else s.(places := s.places[c := Running(v)], vcpus := s.vcpus[v := s.vcpus[v].(cpu := c)])
      else s
    case Switch(c, status) =>
      if c in s.places && s.places[c].Running? && s.places[c].v in s.vcpus && !status.Aborted? then
        var v := s.places[c].v;
        s.(places := s.places[c := Saving(v)], vcpus := s.vcpus[v := s.vcpus[v].(status := status)])
      else s
    case Abort(c) =>
      if c in s.places && s.places[c].Running? && s.places[c].v in s.vcpus then
        var v := s.places[c].v;
        s.(places := s.places[c := Saving(v)], vcpus := s.vcpus[v := s.vcpus[v].(status := Aborted)],
           aborting := s.aborting + {v.vm})
      else s
    case Saved(c) =>
      if c in s.places && s.places[c].Saving? && s.places[c].v in s.vcpus then
        Unlock(s, c, s.places[c].v, s.vcpus[s.places[c].v].status)
      else s
    case Start(v) =>
      if v in s.vcpus && !s.vcpus[v].locked && s.vcpus[v].status.Off?
        then s.(vcpus := s.vcpus[v := s.vcpus[v].(status := Ready)])
      else s
  }

  /** pCPU `c` holds the execution lock of `v`. */
  predicate Holds(s: State, c: nat, v: VCpuId) {
    c in s.places && !s.places[c].AtPrimary? && s.places[c].v == v
  }

  ghost predicate Inv(s: State) {
    && (forall c | c in s.places && !s.places[c].AtPrimary? :: PlaceOk(s, s.places[c], c))
    && (forall c, d | c in s.places && d in s.places && c != d && !s.places[c].AtPrimary? && !s.places[d].AtPrimary? ::
          s.places[c].v != s.places[d].v)
    && (forall v | v in s.vcpus && s.vcpus[v].locked :: exists c :: Holds(s, c, v))
  }

  /** The vCPU a pCPU works on is locked; one that executes has this pCPU in its `cpu` field; and one that
      passed the check is neither off nor aborted. */
  predicate PlaceOk(s: State, place: Place, c: nat)
    requires !place.AtPrimary?
  {
    && place.v in s.vcpus && s.vcpus[place.v].locked
    && (place.Running? || place.Saving? ==> s.vcpus[place.v].cpu == c)
    && (place.Checked? || place.Running? ==> !s.vcpus[place.v].status.Off? && !s.vcpus[place.v].status.Aborted?)
  }

  /** No pCPU is in a secondary vCPU and no lock is held. */
  predicate Initial(s: State) {
    && (forall c | c in s.places :: s.places[c].AtPrimary?)
    && (forall v | v in s.vcpus :: !s.vcpus[v].locked && !s.vcpus[v].status.Aborted?)
    && s.aborting == {}
  }

  /** A step of pCPU `c` on vCPU `v` keeps the invariant if it leaves the two consistent. */
  lemma LocalStep(s: State, s': State, c: nat, v: VCpuId, place: Place, vcpu: VCpu)
    requires Inv(s) && c in s.places && v in s.vcpus
    requires Holds(s, c, v) || (s.places[c].AtPrimary? && !s.vcpus[v].locked)
    requires s'.places == s.places[c := place] && s'.vcpus == s.vcpus[v := vcpu]
    requires if place.AtPrimary? then !vcpu.locked else place.v == v && PlaceOk(s', place, c)
    ensures Inv(s')
  {
    forall d | d in s'.places && !s'.places[d].AtPrimary? && d != c
      ensures s'.places[d].v != v && PlaceOk(s', s'.places[d], d)
    {
      assert PlaceOk(s, s.places[d], d);
    }
    forall w | w in s'.vcpus && s'.vcpus[w].locked ensures exists d :: Holds(s', d, w) {
      if w == v {
        assert Holds(s', c, v);
      } else {
        var d :| Holds(s, d, w);
        assert Holds(s', d, w);
      }
    }
  }

  lemma StartKeepsInv(s: State, v: VCpuId)
    requires Inv(s)
    ensures Inv(Step(s, Start(v)))
  {
    var s' := Step(s, Start(v));
    forall c | c in s'.places && !s'.places[c].AtPrimary? ensures PlaceOk(s', s'.places[c], c) {
      assert PlaceOk(s, s.places[c], c);
    }
    forall w | w in s'.vcpus && s'.vcpus[w].locked ensures exists c :: Holds(s', c, w) {
      var c :| Holds(s, c, w);
      assert Holds(s', c, w);
    }
  }

  lemma StepKeepsInv(s: State, e: Event)
    requires Inv(s)
    ensures Inv(Step(s, e))
  {
    var s' := Step(s, e);
    if e.Start? {
      StartKeepsInv(s, e.v);
    } else if s' != s {
      Moves(s, e);
      var v := if e.TryLock? then e.v else s.places[e.c].v;
      LocalStep(s, s', e.c, v, s'.places[e.c], s'.vcpus[v]);
    }
  }

  /** What an enabled step of pCPU `e.c` changes. */
  lemma Moves(s: State, e: Event)
    requires Inv(s) && !e.Start? && Step(s, e) != s
    ensures e.c in s.places && (e.TryLock? || !s.places[e.c].AtPrimary?)
    ensures var s' := Step(s, e);
            var v := if e.TryLock? then e.v else s.places[e.c].v;
            && v in s.vcpus && v in s'.vcpus && e.c in s'.places
            && (Holds(s, e.c, v) || (s.places[e.c].AtPrimary? && !s.vcpus[v].locked))
            && s'.places == s.places[e.c := s'.places[e.c]] && s'.vcpus == s.vcpus[v := s'.vcpus[v]]
            && if s'.places[e.c].AtPrimary? then !s'.vcpus[v].locked
               else s'.places[e.c].v == v && PlaceOk(s', s'.places[e.c], e.c)
  {
    assert e.c in s.places;
    if !s.places[e.c].AtPrimary? { assert PlaceOk(s, s.places[e.c], e.c); }
  }

  // ---- Runs ----------------------------------------------------------------------------------

  ghost predicate Run(run: seq<State>) {
    |run| > 0 && Initial(run[0]) && forall i | 0 <= i < |run| - 1 :: StepAt(run, i)
  }

  ghost predicate StepAt(run: seq<State>, i: nat)
    requires i + 1 < |run|
  {
    Next(run[i], run[i + 1])
  }

  ghost predicate Next(s: State, s': State) {
    exists e :: s' == Step(s, e)
  }

  lemma {:induction false} RunInv(run: seq<State>, i: nat)
    requires Run(run) && i < |run|
    ensures Inv(run[i])
    decreases i
  {
    hide Step;
    if i > 0 {
      RunInv(run, i - 1);
      var j := i - 1;
      assert StepAt(run, j);
      var e :| run[i] == Step(run[j], e);
      StepKeepsInv(run[j], e);
    }
  }

  /** In every reachable state a vCPU is worked on by at most one pCPU, its lock being held exactly while
      one does. */
  lemma OnePCpu(run: seq<State>, i: nat, c: nat, d: nat, v: VCpuId)
    requires Run(run) && i < |run|
    ensures Holds(run[i], c, v) && Holds(run[i], d, v) ==> c == d
    ensures v in run[i].vcpus ==> (run[i].vcpus[v].locked <==> exists c :: Holds(run[i], c, v))
  {
    RunInv(run, i);
    if c' :| Holds(run[i], c', v) {
      assert PlaceOk(run[i], run[i].places[c'], c');
    }
  }

  /** The primary vCPU that a secondary returns to belongs to the pCPU that executed it. */
  lemma ReturnsToOwnPrimary(run: seq<State>, i: nat, c: nat)
    requires Run(run) && i < |run| && c in run[i].places && (run[i].places[c].Running? || run[i].places[c].Saving?)
    ensures run[i].places[c].v in run[i].vcpus && run[i].vcpus[run[i].places[c].v].cpu == c
  {
    RunInv(run, i);
  }

  lemma StepNeverRevives(s: State, e: Event, v: VCpuId)
    requires Inv(s) && v in s.vcpus
    ensures v in Step(s, e).vcpus && (s.vcpus[v].status.Aborted? ==> Step(s, e).vcpus[v].status.Aborted?)
    ensures s.aborting <= Step(s, e).aborting
  {
    if e.Switch? && e.c in s.places && s.places[e.c].Running? { assert PlaceOk(s, s.places[e.c], e.c); }
  }

  /** The aborted state is never left, nor is the decision to abort a VM. */
  lemma {:induction false} AbortedForever(run: seq<State>, i: nat, j: nat, v: VCpuId)
    requires Run(run) && i <= j < |run| && v in run[i].vcpus
    ensures v in run[j].vcpus && (run[i].vcpus[v].status.Aborted? ==> run[j].vcpus[v].status.Aborted?)
    ensures run[i].aborting <= run[j].aborting
    decreases j
  {
    hide Step, Inv;
    if i < j {
      AbortedForever(run, i, j - 1, v);
      RunInv(run, j - 1);
      var k := j - 1;
      assert StepAt(run, k);
      var e :| run[j] == Step(run[k], e);
      StepNeverRevives(run[k], e, v);
    }
  }

  predicate ChecksFor(s: State, c: nat, v: VCpuId) {
    c in s.places && s.places[c] == Checked(v)
  }

  predicate Executes(s: State, c: nat, v: VCpuId) {
    c in s.places && s.places[c] == Running(v)
  }

  lemma StepNoNewCheck(s: State, e: Event, c: nat, v: VCpuId)
    requires v.vm in s.aborting && ChecksFor(Step(s, e), c, v)
    ensures ChecksFor(s, c, v)
  {
  }

  lemma StepRunsChecked(s: State, e: Event, c: nat, v: VCpuId)
    requires Executes(Step(s, e), c, v) && !Executes(s, c, v)
    ensures ChecksFor(s, c, v)
  {
  }

  /** Once a VM is aborting, a pCPU that is past the check for one of its vCPUs was there all along. */
  lemma {:induction false} NoNewCheck(run: seq<State>, i: nat, j: nat, c: nat, v: VCpuId)
    requires Run(run) && i <= j < |run| && v.vm in run[i].aborting && v in run[i].vcpus
    requires ChecksFor(run[j], c, v)
    ensures ChecksFor(run[i], c, v)
    decreases j
  {
    hide Step, ChecksFor, Initial;
    if i < j {
      var k := j - 1;
      AbortedForever(run, i, k, v);
      assert StepAt(run, k);
      var e :| run[j] == Step(run[k], e);
      StepNoNewCheck(run[k], e, c, v);
      NoNewCheck(run, i, k, c, v);
    }
  }

  /** pCPU `c` begins to execute `v` in a step after state `i`. */
  ghost predicate Begins(run: seq<State>, i: nat, c: nat, v: VCpuId) {
    exists j :: i <= j < |run| - 1 && BeginsAt(run, j, c, v)
  }

  predicate BeginsAt(run: seq<State>, j: nat, c: nat, v: VCpuId)
    requires j + 1 < |run|
  {
    !Executes(run[j], c, v) && Executes(run[j + 1], c, v)
  }

  /** The run can go on so that `c` begins to execute `v`. */
  ghost predicate CanBegin(run: seq<State>, c: nat, v: VCpuId)
    requires run != []
  {
    exists more :: run <= more && Run(more) && Begins(more, |run| - 1, c, v)
  }

  /** A vCPU of an aborting VM can still be run exactly on a pCPU that had already looked at the abort flag
      and not yet handed the vCPU out. */
  lemma RunAfterAbortIff(run: seq<State>, c: nat, v: VCpuId)
    requires Run(run)
    requires var s := run[|run| - 1]; v.vm in s.aborting && v in s.vcpus
    ensures CanBegin(run, c, v) <==> ChecksFor(run[|run| - 1], c, v)
  {
    hide Step;
    var n := |run| - 1;
    if more :| run <= more && Run(more) && Begins(more, n, c, v) {
      var j :| n <= j < |more| - 1 && BeginsAt(more, j, c, v);
      assert StepAt(more, j);
      var e :| more[j + 1] == Step(more[j], e);
      StepRunsChecked(more[j], e, c, v);
      NoNewCheck(more, n, j, c, v);
    }
    if ChecksFor(run[n], c, v) {
      RunInv(run, n);
      var s := Decided(run[n], c, v);
      var more := run + [s];
      Extended(run, s);
      assert BeginsAt(more, n, c, v);
      assert run <= more;
    }
  }

  lemma Decided(s: State, c: nat, v: VCpuId) returns (s': State)
    requires Inv(s) && ChecksFor(s, c, v)
    ensures Next(s, s') && !Executes(s, c, v) && Executes(s', c, v)
  {
    assert PlaceOk(s, s.places[c], c);
    s' := Step(s, Decide(c, true));
  }

  lemma Extended(run: seq<State>, s: State)
    requires Run(run) && Next(run[|run| - 1], s)
    ensures Run(run + [s])
  {
    var more := run + [s];
    forall i | 0 <= i < |more| - 1 ensures StepAt(more, i) {
      if i < |run| - 1 { assert StepAt(run, i); }
    }
  }

  /** That exception is real: the flag is read before the vCPU is handed out, so a run may still succeed
      after another vCPU of the same VM has aborted. */
  lemma RunMayOutliveAbort() returns (run: seq<State>, c: nat, v: VCpuId)
    ensures Run(run) && |run| == 8 && c in run[6].places && c in run[7].places
    ensures v.vm in run[6].aborting && !run[6].places[c].Running? && run[7].places[c] == Running(v)
  {
    hide Step;
    c, v := 1, VCpuId(2, 0);
    var w := VCpuId(2, 1);
    var s0, s1, s2, s3 := Hands(v, w);
    var s4, s5, s6, s7 := Races(s3, v, w);
    run := [s0, s1, s2, s3, s4, s5, s6, s7];
  }

  lemma Hands(v: VCpuId, w: VCpuId) returns (s0: State, s1: State, s2: State, s3: State)
    requires v != w
    ensures Initial(s0) && Next(s0, s1) && Next(s1, s2) && Next(s2, s3)
    ensures s3.places == map[0 := Running(w), 1 := AtPrimary] && s3.aborting == {}
    ensures s3.vcpus == map[v := VCpu(Ready, 0, false), w := VCpu(Ready, 0, true)]
  {
    s0 := State(map[0 := AtPrimary, 1 := AtPrimary], map[v := VCpu(Ready, 0, false), w := VCpu(Ready, 0, false)], {});
    s1 := Reached(s0, TryLock(0, w));
    s2 := Reached(s1, Check(0));
    s3 := Reached(s2, Decide(0, false));
  }

  lemma Races(s3: State, v: VCpuId, w: VCpuId) returns (s4: State, s5: State, s6: State, s7: State)
    requires v != w && v.vm == w.vm && s3.places == map[0 := Running(w), 1 := AtPrimary] && s3.aborting == {}
    requires s3.vcpus == map[v := VCpu(Ready, 0, false), w := VCpu(Ready, 0, true)]
    ensures Next(s3, s4) && Next(s4, s5) && Next(s5, s6) && Next(s6, s7)
    ensures v.vm in s6.aborting && 1 in s6.places && s6.places[1] == Checked(v) && 1 in s7.places &&
            s7.places[1] == Running(v)
  {
    s4 := Reached(s3, TryLock(1, v));
    s5 := Reached(s4, Check(1));
    s6 := Reached(s5, Abort(0));
    s7 := Reached(s6, Decide(1, false));
  }

  lemma Reached(s: State, e: Event) returns (s': State)
    ensures s' == Step(s, e) && Next(s, s')
  {
    s' := Step(s, e);
  }
}
