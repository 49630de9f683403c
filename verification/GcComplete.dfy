// The other way round: whatever the machine with one mutex can do once a first pointer is
// constructed, threads that make the mutex and wait for it can do, keeping the guard.

module GcComplete {
  import opened GcList
  import opened GcThreaded
  import opened GcMutex
  import opened GcLink

  // A world with the mutex made, between the machine's steps: no thread is on its way into
  // an operation, and the mutex is held by the machine's owner.
  ghost predicate Plain(w: World, s: State) {
    && w.core == s.(owner := Free) && w.hMutex != 0 && w.handles == map[]
    && w.held == (if s.owner == Free then map[] else map[w.hMutex := s.owner])
    && forall i :: i in w.stages ==> w.stages[i] == Outside
  }

  lemma Goes(acts: seq<Act>, w: World, a: Act) returns (acts': seq<Act>, w': World)
    requires GuardedRun(acts) == There(w) && MayDo(w, a) && Guard(w, a)
    ensures acts <= acts' && GuardedRun(acts') == There(w') && w' == Do(w, a)
  {
    hide MayDo, Do, Guard;
    acts', w' := acts + [a], Do(w, a);
    assert acts'[..|acts|] == acts;
  }

  // A constructor on its way, from the test of the handle to the wait
  lemma GoesToWait(acts: seq<Act>, w: World, i: Tid) returns (acts': seq<Act>, w': World)
    requires GuardedRun(acts) == There(w) && (StageOf(w, i).Testing? || StageOf(w, i).Reading?)
    requires w.hMutex == 0 ==> StageOf(w, i).Testing? && w.made == 0
    requires forall j :: j in w.stages && j != i ==> w.stages[j] == Outside
    ensures acts <= acts' && GuardedRun(acts') == There(w')
    ensures w'.core == w.core && w'.held == w.held && w'.handles == w.handles && w'.hMutex != 0
    ensures StageOf(w', i) == Waiting(StageOf(w, i).op, w'.hMutex)
    ensures forall j :: j in w'.stages && j != i ==> w'.stages[j] == Outside
  {
    hide GuardedRun;
    acts', w' := acts, w;
    if StageOf(w', i).Testing? {
      acts', w' := Goes(acts', w', Probe(i));
      if StageOf(w', i).Making? { acts', w' := Goes(acts', w', Make(i)); }
    }
    acts', w' := Goes(acts', w', Read(i));
  }

  // Entering an operation and taking the mutex, which is made if this is the first
  lemma Acquires(acts: seq<Act>, w: World, s: State, i: Tid, op: UserPc) returns (acts': seq<Act>, w': World)
    requires GuardedRun(acts) == There(w) && Enabled(s, Acquire(i, op))
    requires Plain(w, s) || (w == Empty() && s == Init() && op.Ctor?)
    ensures acts <= acts' && GuardedRun(acts') == There(w') && Plain(w', Apply(s, Acquire(i, op)))
  {
    hide GuardedRun;
    assert PcOf(w.core, i) == PcOf(s, i);
    MayStartAside(s, Free, op);
    acts', w' := Goes(acts, w, Enter(i, op));
    acts', w' := GoesToWait(acts', w', i);
    hide MayStart;
    acts', w' := Goes(acts', w', Lock(i));
    assert w'.held == map[w'.hMutex := User(i)];
  }

  lemma Leaves(acts: seq<Act>, w: World, s: State, i: Tid) returns (acts': seq<Act>, w': World)
    requires GuardedRun(acts) == There(w) && Plain(w, s) && s.owner == User(i) && PcOf(s, i) == Leave
    ensures acts <= acts' && GuardedRun(acts') == There(w') && Plain(w', AdvanceUser(s, i))
  {
    hide GuardedRun;
    assert PcOf(w.core, i) == PcOf(s, i);
    acts', w' := Goes(acts, w, Unlock(i));
    assert w'.held == map[];
  }

  lemma Inside(acts: seq<Act>, w: World, s: State, step: Step) returns (acts': seq<Act>, w': World)
    requires GuardedRun(acts) == There(w) && Plain(w, s) && IsInner(s, step)
    ensures acts <= acts' && GuardedRun(acts') == There(w') && Plain(w', Apply(s, step))
  {
    hide GuardedRun, Enabled, Apply;
    InnerAside(s, step);
    OwnerAside(s, Free, step);
    acts', w' := Goes(acts, w, Inner(step));
  }

  lemma InnerAside(s: State, step: Step)
    requires IsInner(s, step)
    ensures IsInner(s.(owner := Free), step)
  {
    hide Enabled;
    OwnerAside(s, Free, step);
    if step.Advance? { assert PcOf(s.(owner := Free), step.i) == PcOf(s, step.i); }
  }

  lemma CollectorTakes(acts: seq<Act>, w: World, s: State, g: Gid) returns (acts': seq<Act>, w': World)
    requires GuardedRun(acts) == There(w) && Plain(w, s) && Enabled(s, Collector(g)) && s.gcs[g].Want?
    ensures acts <= acts' && GuardedRun(acts') == There(w') && Plain(w', AdvanceCollector(s, g))
  {
    hide GuardedRun;
    acts', w' := Goes(acts, w, GcRead(g));
    acts', w' := Goes(acts', w', GcLock(g));
    assert w'.held == map[w'.hMutex := Gc(g)];
    assert w'.handles == map[];
  }

  lemma CollectorGives(acts: seq<Act>, w: World, s: State, g: Gid) returns (acts': seq<Act>, w': World)
    requires GuardedRun(acts) == There(w) && Plain(w, s) && MutexOk(s)
    requires Enabled(s, Collector(g)) && s.gcs[g].Leaving?
    ensures acts <= acts' && GuardedRun(acts') == There(w') && Plain(w', AdvanceCollector(s, g))
  {
    hide GuardedRun;
    assert s.owner == Gc(g);
    acts', w' := Goes(acts, w, GcUnlock(g));
    assert w'.held == map[];
  }

  // Each step of the machine is one act, or the few that lead to a lock.
  lemma StepIsActs(acts: seq<Act>, w: World, s: State, step: Step) returns (acts': seq<Act>, w': World)
    requires GuardedRun(acts) == There(w) && Plain(w, s) && MutexOk(s) && Enabled(s, step)
    ensures acts <= acts' && GuardedRun(acts') == There(w') && Plain(w', Apply(s, step))
  {
    hide GuardedRun, Plain, AdvanceUser, AdvanceCollector;
    if step.Acquire? {
      acts', w' := Acquires(acts, w, s, step.i, step.op);
    } else if step.Advance? && PcOf(s, step.i) == Leave {
      acts', w' := Leaves(acts, w, s, step.i);
    } else if step.Collector? && s.gcs[step.g].Want? {
      acts', w' := CollectorTakes(acts, w, s, step.g);
    } else if step.Collector? && s.gcs[step.g].Leaving? {
      acts', w' := CollectorGives(acts, w, s, step.g);
    } else {
      acts', w' := Inside(acts, w, s, step);
    }
  }

  // Every run of the machine that begins with a construction is one of threads that make the
  // mutex, wait for it, and keep the guard.
  lemma {:induction false} MachineIsGuarded(steps: seq<Step>, s: State) returns (acts: seq<Act>, w: World)
    requires Run(steps) == Reached(s) && steps != [] && steps[0].Acquire? && steps[0].op.Ctor?
    ensures GuardedRun(acts) == There(w) && Plain(w, s)
  {
    hide Enabled, Apply, Plain;
    var n := |steps| - 1;
    var before, step := Run(steps[..n]).state, steps[n];
    if n == 0 {
      acts, w := Acquires([], Empty(), Init(), step.i, step.op);
    } else {
      var earlier, v := MachineIsGuarded(steps[..n], before);
      MutexInRun(steps[..n], before);
      acts, w := StepIsActs(earlier, v, before, step);
    }
  }

  lemma MutexInRun(steps: seq<Step>, s: State)
    requires Run(steps) == Reached(s)
    ensures MutexOk(s)
  {
    hide Run, MutexOk, CountingOk, HandleOk, FinalOk, BegunOk;
    RunKeepsInv(steps, s);
  }

  // ---- before there is a mutex

  // A thread that collects without one can do so to the end, and come out.
  lemma {:induction false} BareFinishes(acts: seq<Act>, w: World, i: Tid) returns (acts': seq<Act>, w': World)
    requires RunOf(acts) == There(w) && StageOf(w, i) == Bare
    ensures acts <= acts' && RunOf(acts') == There(w') && StageOf(w', i) == Outside
    ensures NoGarbage(w'.core.gclist) && w'.core.live == w.core.live
    decreases |w.core.gclist|
  {
    hide RunOf, Dropped;
    if NoGarbage(w.core.gclist) {
      acts', w' := acts + [BareLeave(i)], Do(w, BareLeave(i));
      OneMoreAct(acts, w, BareLeave(i));
    } else {
      var k := FirstGarbageIn(w.core.gclist);
      DroppedShortens(w.core.gclist, k);
      OneMoreAct(acts, w, BareCollect(i, k));
      acts', w' := BareFinishes(acts + [BareCollect(i, k)], Do(w, BareCollect(i, k)), i);
    }
  }

  lemma OneMoreAct(acts: seq<Act>, w: World, a: Act)
    requires RunOf(acts) == There(w) && MayDo(w, a)
    ensures RunOf(acts + [a]) == There(Do(w, a))
  {
    hide MayDo, Do;
    assert (acts + [a])[..|acts|] == acts;
  }

  lemma {:induction false} DroppedShortens(l: seq<Info>, k: nat)
    requires k < |l|
    ensures |Dropped(l, l[k].memPtr)| < |l|
  {
    if k > 0 {
      DroppedShortens(l[1..], k - 1);
    } else {
      DroppedNoLonger(l[1..], l[0].memPtr);
    }
  }

  lemma {:induction false} DroppedNoLonger(l: seq<Info>, a: Addr)
    ensures |Dropped(l, a)| <= |l|
  {
    if l != [] { DroppedNoLonger(l[1..], a); }
  }
}
