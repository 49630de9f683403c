// Runs that keep the guard are runs of the machine with one mutex.

module GcLink {
  import opened GcList
  import opened GcThreaded
  import opened GcMutex

  // Before there is a mutex nothing has been done.
  ghost predicate NotYet(w: World) {
    && w.core == Init() && w.held == map[] && w.handles == map[]
    && (forall i :: StageOf(w, i) == Outside || StageOf(w, i) == Bare || StageOf(w, i) == Reading(Scan)
                    || (Constructing(StageOf(w, i)) && StageOf(w, i).op.Ctor?))
    && (forall i, j :: Constructing(StageOf(w, i)) && j != i ==> StageOf(w, j) == Outside)
  }

  // Afterwards there is only one, and it has this owner.
  ghost predicate Settled(w: World, o: Owner) {
    && w.held == (if o == Free then map[] else map[w.hMutex := o])
    && (forall i :: !StageOf(w, i).Making? && StageOf(w, i) != Bare)
    && (forall i :: StageOf(w, i).Waiting? ==> StageOf(w, i).m == w.hMutex)
    && (forall i :: StageOf(w, i) != Outside ==> PcOf(w.core, i) == Idle)
    && (forall g :: g in w.handles ==> w.handles[g] == w.hMutex)
  }

  ghost predicate Linked(w: World, o: Owner) {
    && w.core.owner == Free
    && (if w.hMutex == 0 then o == Free && NotYet(w) else Settled(w, o))
    && MutexOk(Under(w, o))
  }

  // The machine's state, with the mutex's owner
  function Under(w: World, o: Owner): State {
    w.core.(owner := o)
  }

  datatype MachineStep = NoStep | MachineStep(step: Step)

  // The machine's step that an act is
  function StepOf(w: World, a: Act): MachineStep
    requires MayDo(w, a)
  {
    match a
    case Lock(i) => MachineStep(Acquire(i, StageOf(w, i).op))
    case Inner(step) => MachineStep(step)
    case Unlock(i) => MachineStep(Advance(i))
    case GcLock(g) => MachineStep(Collector(g))
    case GcUnlock(g) => MachineStep(Collector(g))
    case _ => NoStep
  }

  function OwnerAfter(o: Owner, a: Act): Owner {
    match a
    case Lock(i) => User(i)
    case GcLock(g) => Gc(g)
    case Unlock(i) => Free
    case GcUnlock(g) => Free
    case _ => o
  }

  // The owner plays no part in a step that neither takes nor gives back the mutex.
  lemma OwnerAside(s: State, o: Owner, step: Step)
    requires IsInner(s, step)
    ensures Enabled(s.(owner := o), step)
    ensures Apply(s.(owner := o), step) == Apply(s, step).(owner := o)
    ensures Apply(s, step).owner == s.owner
  {
    hide AdvanceUser, AdvanceCollector, Dropped, Freed, FirstGarbage, NoGarbage;
    match step
    case Advance(i) => OwnerAsideUser(s, o, i);
    case Collector(g) => OwnerAsideCollector(s, o, g);
    case Begin(i, g) => assert PcOf(s.(owner := o), i) == PcOf(s, i);
    case Collect(i, k) => assert PcOf(s.(owner := o), i) == PcOf(s, i);
    case _ =>
  }

  lemma OwnerAsideUser(s: State, o: Owner, i: Tid)
    requires Enabled(s, Advance(i)) && PcOf(s, i) != Leave
    ensures Enabled(s.(owner := o), Advance(i))
    ensures AdvanceUser(s.(owner := o), i) == AdvanceUser(s, i).(owner := o)
    ensures AdvanceUser(s, i).owner == s.owner
  {
    hide Counted, Uncounted, NoGarbage, CanUncount, CanCount, Owned;
    assert PcOf(s.(owner := o), i) == PcOf(s, i);
    assert NextPc(s.(owner := o), i) == NextPc(s, i);
  }

  lemma OwnerAsideCollector(s: State, o: Owner, g: Gid)
    requires IsInner(s, Collector(g))
    ensures Enabled(s.(owner := o), Collector(g))
    ensures AdvanceCollector(s.(owner := o), g) == AdvanceCollector(s, g).(owner := o)
    ensures AdvanceCollector(s, g).owner == s.owner
  {
    hide NoGarbage;
  }

  // An act that is no step of the machine leaves its state alone; any other is that step.
  lemma ActIsStep(w: World, o: Owner, a: Act)
    requires Linked(w, o) && MayDo(w, a) && Guard(w, a) && !a.BareCollect?
    ensures match StepOf(w, a)
      case NoStep => Do(w, a).core == w.core && OwnerAfter(o, a) == o
      case MachineStep(step) =>
        && Enabled(Under(w, o), step)
        && Apply(Under(w, o), step) == Under(Do(w, a), OwnerAfter(o, a))
  {
    hide NotYet, Guard, Released;
    hide Shared, NextPc, NoGarbage, FirstGarbage, MayStart, IsInner;
    match a
    case Lock(i) => LockIsStep(w, o, i);
    case Inner(step) => OwnerAside(w.core, o, step);
    case Unlock(i) => UnlockIsStep(w, o, i);
    case GcLock(g) => GcLockIsStep(w, o, g);
    case GcUnlock(g) => GcUnlockIsStep(w, o, g);
    case _ =>
  }

  lemma LockIsStep(w: World, o: Owner, i: Tid)
    requires Linked(w, o) && MayDo(w, Lock(i))
    ensures o == Free && w.hMutex != 0
    ensures var step := Acquire(i, StageOf(w, i).op);
      Enabled(Under(w, o), step) && Apply(Under(w, o), step) == Under(Do(w, Lock(i)), User(i))
  {
    MayStartAside(w.core, o, StageOf(w, i).op);
    hide MayStart;
  }

  lemma MayStartAside(s: State, o: Owner, op: UserPc)
    ensures MayStart(s.(owner := o), op) == MayStart(s, op)
  {
  }

  lemma UnlockIsStep(w: World, o: Owner, i: Tid)
    requires Linked(w, o) && MayDo(w, Unlock(i))
    ensures o == User(i) && w.hMutex != 0
    ensures Enabled(Under(w, o), Advance(i))
    ensures Apply(Under(w, o), Advance(i)) == Under(Do(w, Unlock(i)), Free)
  {
    assert PcOf(Under(w, o), i) == PcOf(w.core, i);
  }

  lemma GcLockIsStep(w: World, o: Owner, g: Gid)
    requires Linked(w, o) && MayDo(w, GcLock(g))
    ensures o == Free && w.hMutex != 0
    ensures Enabled(Under(w, o), Collector(g))
    ensures Apply(Under(w, o), Collector(g)) == Under(Do(w, GcLock(g)), Gc(g))
  {
  }

  lemma GcUnlockIsStep(w: World, o: Owner, g: Gid)
    requires Linked(w, o) && MayDo(w, GcUnlock(g))
    ensures o == Gc(g) && w.hMutex != 0
    ensures Enabled(Under(w, o), Collector(g))
    ensures Apply(Under(w, o), Collector(g)) == Under(Do(w, GcUnlock(g)), Free)
  {
  }

  // Without a mutex nothing is collected under none.
  lemma NoBareCollect(w: World, o: Owner, i: Tid, k: nat)
    requires Linked(w, o)
    ensures !MayDo(w, BareCollect(i, k))
  {
  }

  // What the threads know about the mutex stays right.
  lemma LinkKept(w: World, o: Owner, a: Act)
    requires Linked(w, o) && MayDo(w, a) && Guard(w, a)
    ensures !a.BareCollect?
    ensures Linked(Do(w, a), OwnerAfter(o, a))
  {
    hide MutexOk, MayDo, Do, Apply, Enabled, Guard, NotYet, Settled;
    if a.BareCollect? { NoBareCollect(w, o, a.i, a.k); }
    ActIsStep(w, o, a);
    if StepOf(w, a).MachineStep? { MutexKept(Under(w, o), StepOf(w, a).step); }
    if w.hMutex == 0 { FirstKept(w, o, a); } else { SettledKept(w, o, a); }
  }

  lemma FirstKept(w: World, o: Owner, a: Act)
    requires Linked(w, o) && MayDo(w, a) && Guard(w, a) && w.hMutex == 0
    ensures var w' := Do(w, a);
      w'.core.owner == Free && OwnerAfter(o, a) == Free && if w'.hMutex == 0 then NotYet(w') else Settled(w', Free)
  {
    hide MutexOk, Shared, NextPc;
    assert NotYet(w);
    assert a.Enter? || a.Probe? || a.Make? || a.Read? || a.BareLeave?;
    assert StageOf(w, a.i) == StageOf(w, a.i);
    forall j | j != a.i ensures StageOf(Do(w, a), j) == StageOf(w, j) { }
  }

  lemma SettledKept(w: World, o: Owner, a: Act)
    requires Linked(w, o) && MayDo(w, a) && w.hMutex != 0
    ensures var w' := Do(w, a);
      w'.core.owner == Free && w'.hMutex == w.hMutex && Settled(w', OwnerAfter(o, a))
  {
    hide MutexOk, Do, Apply, MayDo;
    match a
    case Inner(step) => SettledInner(w, o, step);
    case Unlock(i) => SettledUnlock(w, o, i);
    case GcRead(g) => SettledGcRead(w, o, g);
    case GcLock(g) => SettledGcLock(w, o, g);
    case GcUnlock(g) => SettledGcUnlock(w, o, g);
    case BareCollect(i, k) => NoBareCollect(w, o, i, k);
    case Lock(i) => SettledLock(w, o, i);
    case _ => SettledStage(w, o, a);
  }

  lemma SettledStage(w: World, o: Owner, a: Act)
    requires Linked(w, o) && MayDo(w, a) && w.hMutex != 0
    requires a.Enter? || a.Probe? || a.Make? || a.Read? || a.BareLeave?
    ensures var w' := Do(w, a);
      w'.core.owner == Free && w'.hMutex == w.hMutex && Settled(w', OwnerAfter(o, a))
  {
    hide MutexOk, MayStart, MayEnter;
    assert !StageOf(w, a.i).Making?;
    assert forall j :: j != a.i ==> StageOf(Do(w, a), j) == StageOf(w, j);
  }

  lemma SettledLock(w: World, o: Owner, i: Tid)
    requires Linked(w, o) && MayDo(w, Lock(i)) && w.hMutex != 0
    ensures var w' := Do(w, Lock(i));
      w'.core.owner == Free && w'.hMutex == w.hMutex && Settled(w', User(i))
  {
    LockIsStep(w, o, i);
    hide MutexOk, MayStart;
    var w' := Do(w, Lock(i));
    assert StageOf(w, i).m == w.hMutex;
    assert forall j :: j != i ==> PcOf(w'.core, j) == PcOf(w.core, j);
    assert forall j :: StageOf(w', j) == if j == i then Outside else StageOf(w, j);
    assert w'.held == map[w.hMutex := User(i)];
  }

  lemma SettledUnlock(w: World, o: Owner, i: Tid)
    requires Linked(w, o) && MayDo(w, Unlock(i)) && w.hMutex != 0
    ensures var w' := Do(w, Unlock(i));
      w'.core.owner == Free && w'.hMutex == w.hMutex && Settled(w', Free)
  {
    UnlockIsStep(w, o, i);
    hide MutexOk;
    var w' := Do(w, Unlock(i));
    assert forall j :: StageOf(w', j) == StageOf(w, j);
  }

  lemma SettledGcRead(w: World, o: Owner, g: Gid)
    requires Linked(w, o) && MayDo(w, GcRead(g)) && w.hMutex != 0
    ensures var w' := Do(w, GcRead(g));
      w'.core.owner == Free && w'.hMutex == w.hMutex && Settled(w', o)
  {
    hide MutexOk, NotYet;
    var w' := Do(w, GcRead(g));
    assert forall j :: StageOf(w', j) == StageOf(w, j) && PcOf(w'.core, j) == PcOf(w.core, j);
  }

  lemma SettledGcLock(w: World, o: Owner, g: Gid)
    requires Linked(w, o) && MayDo(w, GcLock(g)) && w.hMutex != 0
    ensures var w' := Do(w, GcLock(g));
      w'.core.owner == Free && w'.hMutex == w.hMutex && Settled(w', Gc(g))
  {
    hide MutexOk, NotYet;
    GcLockIsStep(w, o, g);
    var w' := Do(w, GcLock(g));
    assert forall j :: StageOf(w', j) == StageOf(w, j) && PcOf(w'.core, j) == PcOf(w.core, j);
  }

  lemma SettledGcUnlock(w: World, o: Owner, g: Gid)
    requires Linked(w, o) && MayDo(w, GcUnlock(g)) && w.hMutex != 0
    ensures var w' := Do(w, GcUnlock(g));
      w'.core.owner == Free && w'.hMutex == w.hMutex && Settled(w', Free)
  {
    hide MutexOk, NotYet;
    GcUnlockIsStep(w, o, g);
    var w' := Do(w, GcUnlock(g));
    assert forall j :: StageOf(w', j) == StageOf(w, j) && PcOf(w'.core, j) == PcOf(w.core, j);
  }

  // Only threads that are inside take such steps.
  lemma SettledInner(w: World, o: Owner, step: Step)
    requires Linked(w, o) && MayDo(w, Inner(step)) && w.hMutex != 0
    ensures var w' := Do(w, Inner(step));
      w'.core.owner == Free && w'.hMutex == w.hMutex && Settled(w', o)
  {
    hide MutexOk, AdvanceUser, AdvanceCollector, Dropped, Freed, NoGarbage, FirstGarbage;
    OwnerAside(w.core, o, step);
    var w' := Do(w, Inner(step));
    if step.Advance? { UserShape(w.core, step.i); }
    assert step.Collector? ==> w'.core.users == w.core.users by {
      if step.Collector? { UsersKept(w.core, step.g); }
    }
    assert forall j :: StageOf(w', j) == StageOf(w, j);
    assert step.Advance? || step.Begin? ==> PcOf(w.core, step.i) != Idle;
  }

  lemma UsersKept(s: State, g: Gid)
    requires Enabled(s, Collector(g))
    ensures AdvanceCollector(s, g).users == s.users
  {
  }

  // Every run that keeps the guard is one of the machine with one mutex, that mutex's owner
  // supplied.
  lemma {:induction false} GuardedIsMachine(acts: seq<Act>, w: World) returns (steps: seq<Step>, o: Owner)
    requires GuardedRun(acts) == There(w)
    ensures Linked(w, o) && Run(steps) == Reached(Under(w, o))
  {
    hide Linked, MayDo, Do, Guard, Run, Enabled, Apply;
    if acts == [] {
      steps, o := [], Free;
      EmptyIsLinked();
    } else {
      var before, a := GuardedRun(acts[..|acts| - 1]).world, acts[|acts| - 1];
      steps, o := GuardedIsMachine(acts[..|acts| - 1], before);
      LinkKept(before, o, a);
      ActIsStep(before, o, a);
      match StepOf(before, a)
      case NoStep => UnderSame(before, w, o);
      case MachineStep(step) => steps := OneStep(steps, Under(before, o), step);
      o := OwnerAfter(o, a);
    }
  }

  lemma EmptyIsLinked()
    ensures Linked(Empty(), Free) && Run([]) == Reached(Under(Empty(), Free))
  {
  }

  lemma UnderSame(v: World, w: World, o: Owner)
    requires v.core == w.core
    ensures Under(v, o) == Under(w, o)
  {
  }
}
