// What an operation amounts to: from the step that takes the mutex to the one before it is
// given back, the shared list and the pointers change exactly as by one operation of the
// sequential collector, however the steps of other threads come in between.

module GcAtomic {
  import opened GcList
  import opened GcSequential
  import opened GcThreaded

  // ---- what each operation does

  ghost predicate SameBut(before: State, after: State, born: int) {
    && after.freed == before.freed
    && after.instCount == before.instCount + born
  }

  ghost predicate Effect(op: UserPc, before: State, after: State) {
    match op
    case Ctor(p, t) =>
      && SameBut(before, after, 1) && after.live == before.live[p := t]
      && after.gclist == Referenced(before.gclist, t) && after.owned == Owned(before.owned, t)
    case Copy(p, q) =>
      && SameBut(before, after, 1) && q in before.live && after.live == before.live[p := before.live[q]]
      && after.gclist == Referenced(before.gclist, before.live[q]) && after.owned == before.owned
    case Dtor(p) =>
      && SameBut(before, after, -1) && after.live == before.live - {p}
      && IsUncounted(before, p, after.gclist) && after.owned == before.owned
    case Raw(p, t) =>
      && SameBut(before, after, 0) && after.live == before.live[p := t]
      && (exists l :: IsUncounted(before, p, l) && after.gclist == Referenced(l, t))
      && after.owned == Owned(before.owned, t)
    case Asg(p, q) =>
      && SameBut(before, after, 0) && q in before.live && after.live == before.live[p := before.live[q]]
      && (exists l :: IsUncounted(before, p, l) && after.gclist == Referenced(l, before.live[q]))
      && after.owned == before.owned
    case Scan => Swept(before, after)
    case _ => false
  }

  // The pointer's block is counted one less.
  ghost predicate IsUncounted(s: State, p: Ptr, l: seq<Info>) {
    p in s.live && CanUncount(s.gclist, s.live[p]) && l == Uncounted(s.gclist, s.live[p])
  }

  // A collection has dropped the entries without references and freed their blocks.
  ghost predicate Swept(before: State, after: State) {
    && after.gclist == Kept(before.gclist) && after.freed == before.freed + Garbage(before.gclist)
    && after.live == before.live && after.owned == before.owned && after.instCount == before.instCount
  }

  // ---- how far it has come

  ghost predicate Unchanged(before: State, after: State) {
    && after.gclist == before.gclist && after.live == before.live && after.owned == before.owned
    && SameBut(before, after, 0)
  }

  ghost predicate ListIs(before: State, after: State, l: seq<Info>, owned: set<Addr>) {
    after.gclist == l && after.live == before.live && after.owned == owned && SameBut(before, after, 0)
  }

  // What the thread that started `op` in the state `before` has done when it is at pc.
  ghost predicate UnderWay(op: UserPc, before: State, s: State, pc: UserPc) {
    match op
    case Ctor(p, t) =>
      if pc == op || pc == CtorLooked(p, t, CanCount(before.gclist, t)) then Unchanged(before, s)
      else if pc == CtorCounted(p, t) then ListIs(before, s, Referenced(before.gclist, t), Owned(before.owned, t))
      else (pc == CtorBorn(p) || pc.CtorBegun? || pc == Leave) && Effect(op, before, s)
    case Copy(p, q) =>
      q in before.live &&
      if pc == op then Unchanged(before, s)
      else if pc == CopyCounted(p, before.live[q]) then
        ListIs(before, s, Referenced(before.gclist, before.live[q]), before.owned)
      else pc == Leave && Effect(op, before, s)
    case Dtor(p) =>
      if pc == op then Unchanged(before, s)
      else if pc == DtorUncounted(p) then IsUncounted(before, p, s.gclist) && ListIs(before, s, s.gclist, before.owned)
      else pc == Leave && Effect(op, before, s)
    case Raw(p, t) => RawUnderWay(p, t, before, s, pc)
    case Asg(p, q) => AsgUnderWay(p, q, before, s, pc)
    case Scan =>
      if pc == Scan then Sweeping(before, s) else pc == Leave && Swept(before, s)
    case _ => false
  }

  ghost predicate RawUnderWay(p: Ptr, t: Addr, before: State, s: State, pc: UserPc) {
    if pc == Raw(p, t) then Unchanged(before, s)
    else if pc == RawUncounted(p, t) || pc == RawLooked(p, t, CanCount(s.gclist, t)) then
      IsUncounted(before, p, s.gclist) && ListIs(before, s, s.gclist, before.owned)
    else if pc == Counted2(p, t) then
      && (exists l :: IsUncounted(before, p, l) && s.gclist == Referenced(l, t))
      && ListIs(before, s, s.gclist, Owned(before.owned, t))
    else pc == Leave && Effect(Raw(p, t), before, s)
  }

  ghost predicate AsgUnderWay(p: Ptr, q: Ptr, before: State, s: State, pc: UserPc) {
    q in before.live &&
    if pc == Asg(p, q) then Unchanged(before, s)
    else if pc == AsgUncounted(p, q) then IsUncounted(before, p, s.gclist) && ListIs(before, s, s.gclist, before.owned)
    else if pc == Counted2(p, before.live[q]) then
      && (exists l :: IsUncounted(before, p, l) && s.gclist == Referenced(l, before.live[q]))
      && ListIs(before, s, s.gclist, before.owned)
    else pc == Leave && Effect(Asg(p, q), before, s)
  }

  // A collection on its way: what it will keep and will have freed is settled.
  ghost predicate Sweeping(before: State, s: State) {
    && Kept(s.gclist) == Kept(before.gclist)
    && s.freed + Garbage(s.gclist) == before.freed + Garbage(before.gclist)
    && s.live == before.live && s.owned == before.owned && s.instCount == before.instCount
  }

  predicate IsOperation(op: UserPc) {
    op.Ctor? || op.Copy? || op.Dtor? || op.Raw? || op.Asg? || op == Scan
  }

  // ---- one step

  lemma StartsUnderWay(s: State, i: Tid, op: UserPc)
    requires Enabled(s, Acquire(i, op))
    ensures IsOperation(op) && UnderWay(op, s, Apply(s, Acquire(i, op)), op)
  {
    hide Find, Kept, Garbage, Referenced, Uncounted;
  }

  // The thread's own steps, operation by operation
  lemma AdvanceUnderWay(op: UserPc, before: State, s: State, i: Tid)
    requires IsOperation(op) && UnderWay(op, before, s, PcOf(s, i)) && PcOf(s, i) != Leave && Enabled(s, Advance(i))
    ensures UnderWay(op, before, AdvanceUser(s, i), PcOf(AdvanceUser(s, i), i))
  {
    hide AdvanceUser, UnderWay, Enabled;
    match op
    case Ctor(p, t) => CtorAdvances(op, before, s, i);
    case Copy(p, q) => CopyAdvances(op, before, s, i);
    case Dtor(p) => DtorAdvances(op, before, s, i);
    case Raw(p, t) => RawAdvances(op, before, s, i);
    case Asg(p, q) => AsgAdvances(op, before, s, i);
    case Scan => ScanAdvances(op, before, s, i);
    case _ =>
  }

  lemma CtorAdvances(op: UserPc, before: State, s: State, i: Tid)
    requires op.Ctor? && UnderWay(op, before, s, PcOf(s, i)) && PcOf(s, i) != Leave && Enabled(s, Advance(i))
    ensures UnderWay(op, before, AdvanceUser(s, i), PcOf(AdvanceUser(s, i), i))
  {
    hide Find, Counted, Uncounted, Owned;
  }

  lemma CopyAdvances(op: UserPc, before: State, s: State, i: Tid)
    requires op.Copy? && UnderWay(op, before, s, PcOf(s, i)) && PcOf(s, i) != Leave && Enabled(s, Advance(i))
    ensures UnderWay(op, before, AdvanceUser(s, i), PcOf(AdvanceUser(s, i), i))
  {
    hide Find, Counted, Uncounted, Owned;
  }

  lemma DtorAdvances(op: UserPc, before: State, s: State, i: Tid)
    requires op.Dtor? && UnderWay(op, before, s, PcOf(s, i)) && PcOf(s, i) != Leave && Enabled(s, Advance(i))
    ensures UnderWay(op, before, AdvanceUser(s, i), PcOf(AdvanceUser(s, i), i))
  {
    hide Find, Counted, Uncounted, Owned;
  }

  lemma RawAdvances(op: UserPc, before: State, s: State, i: Tid)
    requires op.Raw? && UnderWay(op, before, s, PcOf(s, i)) && PcOf(s, i) != Leave && Enabled(s, Advance(i))
    ensures UnderWay(op, before, AdvanceUser(s, i), PcOf(AdvanceUser(s, i), i))
  {
    hide Find, Counted, Uncounted, Owned;
  }

  lemma AsgAdvances(op: UserPc, before: State, s: State, i: Tid)
    requires op.Asg? && UnderWay(op, before, s, PcOf(s, i)) && PcOf(s, i) != Leave && Enabled(s, Advance(i))
    ensures UnderWay(op, before, AdvanceUser(s, i), PcOf(AdvanceUser(s, i), i))
  {
    hide Find, Counted, Uncounted, Owned;
  }

  lemma ScanAdvances(op: UserPc, before: State, s: State, i: Tid)
    requires op == Scan && UnderWay(op, before, s, PcOf(s, i)) && PcOf(s, i) != Leave && Enabled(s, Advance(i))
    ensures UnderWay(op, before, AdvanceUser(s, i), PcOf(AdvanceUser(s, i), i))
  {
    hide Kept, Garbage;
    AllKept(s.gclist);
  }

  lemma SweepsOn(before: State, s: State, k: nat)
    requires Sweeping(before, s) && DistinctBlocks(s.gclist) && FirstGarbage(s.gclist, k)
    ensures Sweeping(before, Freeing(s, k))
  {
    hide Kept, Garbage, Dropped;
    DropGarbage(s.gclist, k);
  }

  // Nothing that is under way depends on the collectors' positions or the handle.
  lemma SameUnderWay(op: UserPc, before: State, s: State, s': State, pc: UserPc)
    requires UnderWay(op, before, s, pc)
    requires s'.gclist == s.gclist && s'.live == s.live && s'.owned == s.owned && s'.freed == s.freed
    requires s'.instCount == s.instCount
    ensures UnderWay(op, before, s', pc)
  {
    hide Find, Counted, Uncounted, Owned, Kept, Garbage, Referenced, CanUncount, CanCount;
  }

  lemma BeginUnderWay(op: UserPc, before: State, s: State, i: Tid, g: Gid)
    requires Enabled(s, Begin(i, g)) && UnderWay(op, before, s, PcOf(s, i))
    ensures UnderWay(op, before, Apply(s, Begin(i, g)), PcOf(Apply(s, Begin(i, g)), i))
  {
    hide Find, Counted, Uncounted, Owned, Kept, Garbage, Referenced;
  }

  lemma CollectUnderWay(op: UserPc, before: State, s: State, i: Tid, k: nat)
    requires Inv(s) && Enabled(s, Collect(i, k)) && UnderWay(op, before, s, PcOf(s, i))
    ensures UnderWay(op, before, Apply(s, Collect(i, k)), PcOf(Apply(s, Collect(i, k)), i))
  {
    hide Kept, Garbage, Dropped, CountsOk, BlocksOk, HandleOk, FinalOk, BegunOk;
    SweepsOn(before, s, k);
  }

  // While the mutex stays with the thread, only its own steps get it any further.
  lemma StepUnderWay(op: UserPc, before: State, s: State, i: Tid, step: Step)
    requires Inv(s) && Enabled(s, step) && s.owner == User(i) && Apply(s, step).owner == User(i)
    requires IsOperation(op) && UnderWay(op, before, s, PcOf(s, i))
    ensures UnderWay(op, before, Apply(s, step), PcOf(Apply(s, step), i))
  {
    hide UnderWay, AdvanceUser, AdvanceCollector, CountingOk, HandleOk, FinalOk, BegunOk;
    match step
    case Advance(j) =>
      assert j == i;
      UserShape(s, i);
      AdvanceUnderWay(op, before, s, i);
    case Begin(j, g) => BeginUnderWay(op, before, s, i, g);
    case Collect(j, k) => CollectUnderWay(op, before, s, i, k);
    case Collector(g) =>
      CollectorShape(s, g);
      SameUnderWay(op, before, s, AdvanceCollector(s, g), PcOf(s, i));
    case _ =>
  }

  // ---- stretches of a run

  // The mutex stays with the same thread from the end of `steps` through all of `more`.
  ghost predicate HeldThroughout(steps: seq<Step>, more: seq<Step>, o: Owner) {
    forall k :: 0 <= k <= |more| ==> HeldAfter(steps + more[..k], o)
  }

  ghost predicate HeldAfter(steps: seq<Step>, o: Owner) {
    Run(steps).Reached? && Run(steps).state.owner == o
  }

  lemma HeldBefore(steps: seq<Step>, more: seq<Step>, o: Owner)
    requires more != [] && HeldThroughout(steps, more, o)
    ensures var less, step := more[..|more| - 1], more[|more| - 1];
      && HeldThroughout(steps, less, o) && HeldAfter(steps + less, o) && HeldAfter(steps + more, o)
      && Enabled(Run(steps + less).state, step)
      && Run(steps + more) == Reached(Apply(Run(steps + less).state, step))
  {
    hide Enabled, Apply;
    var n := |more| - 1;
    var less, step := more[..n], more[n];
    forall k | 0 <= k <= n ensures HeldAfter(steps + less[..k], o) {
      assert less[..k] == more[..k];
      assert HeldAfter(steps + more[..k], o);
    }
    assert less[..n] == less && more[..n + 1] == more;
    assert HeldAfter(steps + more[..n + 1], o);
    assert (steps + more)[..|steps + more| - 1] == steps + less && (steps + more)[|steps + more| - 1] == step;
  }

  lemma {:induction false} RunUnderWay(steps: seq<Step>, s0: State, i: Tid, op: UserPc, more: seq<Step>)
    requires Run(steps) == Reached(s0) && Enabled(s0, Acquire(i, op))
    requires HeldThroughout(steps + [Acquire(i, op)], more, User(i))
    ensures Run(steps + [Acquire(i, op)] + more).Reached? && IsOperation(op)
    ensures var s := Run(steps + [Acquire(i, op)] + more).state;
      Inv(s) && s.owner == User(i) && UnderWay(op, s0, s, PcOf(s, i))
  {
    hide Run, Inv, UnderWay, HeldThroughout, IsOperation;
    var start := OneStep(steps, s0, Acquire(i, op));
    StartsUnderWay(s0, i, op);
    if more == [] {
      assert start + more == start;
      RunKeepsInv(start, Apply(s0, Acquire(i, op)));
    } else {
      var less, step := more[..|more| - 1], more[|more| - 1];
      HeldBefore(start, more, User(i));
      RunUnderWay(steps, s0, i, op, less);
      var s := Run(start + less).state;
      StepUnderWay(op, s0, s, i, step);
      RunKeepsInv(start + more, Apply(s, step));
    }
  }

  // In every interleaving: when a thread that took the mutex for an operation, and has held
  // it since, is about to give it back, the operation has taken its effect, all of it and
  // nothing else.
  lemma AtomicOperation(steps: seq<Step>, s0: State, i: Tid, op: UserPc, more: seq<Step>, s: State)
    requires Run(steps) == Reached(s0) && Enabled(s0, Acquire(i, op))
    requires HeldThroughout(steps + [Acquire(i, op)], more, User(i))
    requires Run(steps + [Acquire(i, op)] + more) == Reached(s) && PcOf(s, i) == Leave
    ensures Effect(op, s0, s)
  {
    hide Run, Inv, HeldThroughout, Effect, UnderWay;
    RunUnderWay(steps, s0, i, op, more);
    LeavingHasEffect(op, s0, s);
  }

  lemma LeavingHasEffect(op: UserPc, before: State, s: State)
    requires IsOperation(op) && UnderWay(op, before, s, Leave)
    ensures Effect(op, before, s)
  {
    hide Find, Counted, Uncounted, Owned, Kept, Garbage, Referenced;
  }

  // ---- collections of a collector thread

  ghost predicate SweepUnderWay(before: State, s: State, g: Gid) {
    g in s.gcs &&
    (s.gcs[g].Scanning? ==> Sweeping(before, s)) && (s.gcs[g].Leaving? ==> Swept(before, s))
  }

  lemma StepOfSweep(before: State, s: State, g: Gid, step: Step)
    requires Inv(s) && Enabled(s, step) && s.owner == Gc(g) && Apply(s, step).owner == Gc(g)
    requires SweepUnderWay(before, s, g)
    ensures SweepUnderWay(before, Apply(s, step), g)
  {
    hide AdvanceUser, CountingOk, HandleOk, FinalOk, BegunOk, Kept, Garbage, Dropped, Freed, FirstGarbage;
    match step
    case Collector(h) => if s.gcs[h].Scanning? { AllKept(s.gclist); }
    case GcCollect(h, k) => CollectorSweepsOn(before, s, g, k);
    case _ =>
  }

  lemma CollectorSweepsOn(before: State, s: State, g: Gid, k: nat)
    requires Inv(s) && Enabled(s, GcCollect(g, k)) && SweepUnderWay(before, s, g)
    ensures SweepUnderWay(before, Freeing(s, k), g)
  {
    hide Kept, Garbage, Dropped, CountsOk, BlocksOk, HandleOk, FinalOk, BegunOk;
    SweepsOn(before, s, k);
  }

  lemma {:induction false} RunOfSweep(steps: seq<Step>, s0: State, g: Gid, more: seq<Step>)
    requires Run(steps) == Reached(s0) && g in s0.gcs && s0.gcs[g].Want? && Enabled(s0, Collector(g))
    requires HeldThroughout(steps + [Collector(g)], more, Gc(g))
    ensures Run(steps + [Collector(g)] + more).Reached?
    ensures var s := Run(steps + [Collector(g)] + more).state;
      Inv(s) && s.owner == Gc(g) && SweepUnderWay(s0, s, g)
  {
    hide Run, Inv, HeldThroughout, SweepUnderWay;
    var start := OneStep(steps, s0, Collector(g));
    if more == [] {
      assert start + more == start;
      RunKeepsInv(start, Apply(s0, Collector(g)));
      SweepStarts(s0, g);
    } else {
      var less, step := more[..|more| - 1], more[|more| - 1];
      HeldBefore(start, more, Gc(g));
      RunOfSweep(steps, s0, g, less);
      var s := Run(start + less).state;
      StepOfSweep(s0, s, g, step);
      RunKeepsInv(start + more, Apply(s, step));
    }
  }

  lemma SweepStarts(s: State, g: Gid)
    requires g in s.gcs && s.gcs[g].Want? && Enabled(s, Collector(g))
    ensures SweepUnderWay(s, Apply(s, Collector(g)), g)
  {
    hide Kept, Garbage;
  }

  // In every interleaving: when a collector thread that took the mutex, and has held it
  // since, is about to give it back, the entries without references are gone and their
  // blocks freed, and nothing else has changed.
  lemma AtomicCollection(steps: seq<Step>, s0: State, g: Gid, more: seq<Step>, s: State)
    requires Run(steps) == Reached(s0) && g in s0.gcs && s0.gcs[g].Want? && Enabled(s0, Collector(g))
    requires HeldThroughout(steps + [Collector(g)], more, Gc(g))
    requires Run(steps + [Collector(g)] + more) == Reached(s) && g in s.gcs && s.gcs[g].Leaving?
    ensures Swept(s0, s)
  {
    hide Run, Inv, HeldThroughout, Swept;
    RunOfSweep(steps, s0, g, more);
  }

  // ---- every operation can be carried out

  predicate ByThread(more: seq<Step>, i: Tid) {
    forall k :: 0 <= k < |more| ==> IsOf(more[k], i)
  }

  predicate IsOf(step: Step, i: Tid) {
    (step.Advance? && step.i == i) || (step.Begin? && step.i == i) || (step.Collect? && step.i == i)
  }

  // How far a thread still has to go before it leaves
  function StepsLeft(pc: UserPc): nat {
    match pc
    case Ctor(_, _) => 5
    case CtorLooked(_, _, _) => 4
    case CtorCounted(_, _) => 3
    case CtorBorn(_) => 2
    case CtorBegun(_, _) => 1
    case Copy(_, _) => 2
    case CopyCounted(_, _) => 1
    case Dtor(_) => 2
    case DtorUncounted(_) => 1
    case Raw(_, _) => 4
    case RawUncounted(_, _) => 3
    case RawLooked(_, _, _) => 2
    case Asg(_, _) => 3
    case AsgUncounted(_, _) => 2
    case Counted2(_, _) => 1
    case Scan => 1
    case _ => 0
  }

  lemma UnusedHandle(gcs: map<Gid, GcPc>) returns (g: Gid)
    ensures g !in gcs
  {
    var keys := gcs.Keys;
    g := 0;
    var seen: set<Gid> := {};
    while g in gcs
      invariant seen <= keys && g !in seen && (forall h :: h in seen <==> 0 <= h < g)
      decreases |keys - seen|
    {
      assert g in keys - seen && keys - (seen + {g}) == keys - seen - {g};
      seen := seen + {g};
      g := g + 1;
    }
  }

  // A thread that has the mutex can always take another step towards the end.
  lemma NextStep(steps: seq<Step>, s: State, i: Tid) returns (step: Step)
    requires Run(steps) == Reached(s) && PcOf(s, i) != Idle && PcOf(s, i) != Leave
    ensures Enabled(s, step) && IsOf(step, i)
    ensures var s' := Apply(s, step);
      && PcOf(s', i) != Idle
      && (StepsLeft(PcOf(s', i)) < StepsLeft(PcOf(s, i))
          || (PcOf(s', i) == PcOf(s, i) && |s'.gclist| < |s.gclist|))
  {
    hide Run, Inv;
    RunKeepsInv(steps, s);
    NeverStuck(steps, s, i);
    if Enabled(s, Advance(i)) {
      step := Advance(i);
      GetsFurther(s, i);
    } else if PcOf(s, i).CtorBorn? {
      var g := UnusedHandle(s.gcs);
      step := Begin(i, g);
    } else {
      var j :| Enabled(s, Collect(i, j));
      step := Collect(i, j);
      Shorter(s, j);
    }
  }

  lemma GetsFurther(s: State, i: Tid)
    requires Enabled(s, Advance(i)) && PcOf(s, i) != Leave
    ensures var s' := AdvanceUser(s, i); PcOf(s', i) != Idle && StepsLeft(PcOf(s', i)) < StepsLeft(PcOf(s, i))
  {
    hide Shared, CanCount, CanUncount, NoGarbage;
  }

  lemma {:induction false} RunsToLeave(steps: seq<Step>, s: State, i: Tid) returns (more: seq<Step>, s': State)
    requires Run(steps) == Reached(s) && PcOf(s, i) != Idle
    ensures Run(steps + more) == Reached(s') && PcOf(s', i) == Leave
    ensures HeldThroughout(steps, more, User(i)) && ByThread(more, i)
    decreases StepsLeft(PcOf(s, i)), |s.gclist|
  {
    hide Run, Enabled, Apply, StepsLeft, PcOf, IsOf, HeldAfter;
    HeldInside(steps, s, i);
    assert steps + [] == steps;
    if PcOf(s, i) == Leave {
      more, s' := [], s;
    } else {
      var step := NextStep(steps, s, i);
      var start := OneStep(steps, s, step);
      var rest;
      rest, s' := RunsToLeave(start, Apply(s, step), i);
      more := [step] + rest;
      assert start + rest == steps + more;
      forall k | 0 <= k <= |more| ensures HeldAfter(steps + more[..k], User(i)) {
        if k > 0 {
          assert HeldAfter(start + rest[..k - 1], User(i));
          assert start + rest[..k - 1] == steps + more[..k];
        } else {
          assert steps + more[..0] == steps;
        }
      }
    }
  }

  lemma HeldInside(steps: seq<Step>, s: State, i: Tid)
    requires Run(steps) == Reached(s) && PcOf(s, i) != Idle
    ensures HeldAfter(steps, User(i))
  {
    hide Run, CountingOk, HandleOk, FinalOk, BegunOk;
    RunKeepsInv(steps, s);
  }

  // From every state with the mutex free, an idle thread can carry out any operation whose
  // pointers are live, or new, and whose block has not been freed: with its effect, all of
  // it and nothing else.
  lemma OperationRuns(steps: seq<Step>, s: State, i: Tid, op: UserPc) returns (more: seq<Step>, s': State)
    requires Run(steps) == Reached(s) && s.owner == Free && PcOf(s, i) == Idle && IsOperation(op)
    requires op.Ctor? || op.Copy? ==> op.p !in s.live
    requires op.Dtor? || op.Raw? || op.Asg? ==> op.p in s.live
    requires op.Copy? || op.Asg? ==> op.q in s.live
    requires op.Ctor? || op.Raw? ==> op.t !in s.freed
    ensures ByThread(more, i) && Run(steps + [Acquire(i, op)] + more) == Reached(s')
    ensures s'.owner == Free && PcOf(s', i) == Idle && Effect(op, s, s')
  {
    hide Run, Effect, HeldThroughout;
    var start := OneStep(steps, s, Acquire(i, op));
    var rest, last := RunsToLeave(start, Apply(s, Acquire(i, op)), i);
    AtomicOperation(steps, s, i, op, rest, last);
    var all := OneStep(start + rest, last, Advance(i));
    more, s' := rest + [Advance(i)], Apply(last, Advance(i));
    assert all == start + more;
    SameEffect(op, s, last, s');
  }

  lemma SameEffect(op: UserPc, before: State, s: State, s': State)
    requires Effect(op, before, s)
    requires s'.gclist == s.gclist && s'.live == s.live && s'.owned == s.owned && s'.freed == s.freed
    requires s'.instCount == s.instCount
    ensures Effect(op, before, s')
  {
    hide Find, Counted, Uncounted, Owned, Kept, Garbage, Referenced, CanUncount, CanCount;
  }
}
