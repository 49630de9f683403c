// What the collector keeps in runs that keep the guard: what it keeps under one mutex.

module GcGuarded {
  import opened GcList
  import opened GcThreaded
  import opened GcMutex
  import opened GcLink

  lemma GuardedInv(acts: seq<Act>, w: World) returns (o: Owner)
    requires GuardedRun(acts) == There(w)
    ensures Linked(w, o) && Inv(Under(w, o))
  {
    hide *;
    var steps;
    steps, o := GuardedIsMachine(acts, w);
    RunKeepsInv(steps, Under(w, o));
  }

  // Whenever nobody holds the mutex the counts are exact.
  lemma CountsExactWhenUnheld(acts: seq<Act>, w: World)
    requires GuardedRun(acts) == There(w) && w.hMutex !in w.held
    ensures forall a :: RefOf(w.core.gclist, a) == Count(w.core.live, a)
    ensures forall p :: p in w.core.live ==> Listed(w.core.gclist, w.core.live[p])
    ensures DistinctBlocks(w.core.gclist)
    ensures w.core.instCount == |w.core.live|
  {
    hide GuardedRun, Run, RefOf, Count, Listed, MutexOk, NotYet;
    var steps, o := GuardedIsMachine(acts, w);
    CountsExactWhenFree(steps, Under(w, o));
  }

  // The block an act frees, if it frees one
  function FreedIn(w: World, a: Act): Maybe
    requires MayDo(w, a)
  {
    match a
    case Inner(step) => FreedBy(w.core, step)
    case BareCollect(i, k) => Just(w.core.gclist[k].memPtr)
    case _ => Nothing
  }

  // A block is freed only when no pointer points at it, and never a second time.
  lemma GuardedFreeingIsSafe(acts: seq<Act>, w: World, a: Act)
    requires GuardedRun(acts) == There(w) && MayDo(w, a) && Guard(w, a)
    ensures match FreedIn(w, a)
      case Nothing => Do(w, a).core.freed == w.core.freed
      case Just(b) =>
        && (forall p :: p in w.core.live ==> w.core.live[p] != b)
        && b !in w.core.freed
        && Do(w, a).core.freed == Freed(w.core.freed, b)
  {
    hide GuardedRun, Run, Linked, Apply, Enabled, Guard, Freed, Released;
    var steps, o := GuardedIsMachine(acts, w);
    if a.BareCollect? { NoBareCollect(w, o, a.i, a.k); }
    if a.Inner? {
      OwnerAside(w.core, o, a.step);
      FreeingIsSafe(steps, Under(w, o), a.step);
    }
  }

  // At most one collector is active, and the handle names it once it has been stored.
  lemma GuardedOneCollector(acts: seq<Act>, w: World, g: Gid, h: Gid)
    requires GuardedRun(acts) == There(w) && Active(w.core, g) && Active(w.core, h)
    ensures g == h
    ensures (forall i :: !PcOf(w.core, i).CtorBegun?) ==> w.core.hThrd == g + 1
  {
    hide GuardedRun, Run, Linked, MutexOk;
    var steps, o := GuardedIsMachine(acts, w);
    var s := Under(w, o);
    assert Active(s, g) && Active(s, h) && forall i :: PcOf(s, i) == PcOf(w.core, i);
    OneCollector(steps, s, g, h);
  }

  // A collector that returns with no pointer created since it saw instCount at zero leaves
  // an empty list.
  lemma GuardedQuietReturn(acts: seq<Act>, w: World, g: Gid)
    requires GuardedRun(acts) == There(w)
    requires g in w.core.gcs && w.core.gcs[g] == Reset(w.core.created)
    ensures MayDo(w, Inner(Collector(g)))
    ensures var w' := Do(w, Inner(Collector(g))); w'.core.gclist == [] && w'.core.live == map[] && w'.core.hThrd == 0
  {
    hide GuardedRun, Run, Linked;
    var steps, o := GuardedIsMachine(acts, w);
    QuietReturnLeavesNothing(steps, Under(w, o), g);
    OwnerAside(w.core, o, Collector(g));
  }

  // A thread inside an operation can always go on: the entries it goes to are there.
  lemma GuardedNeverStuck(acts: seq<Act>, w: World, i: Tid)
    requires GuardedRun(acts) == There(w) && PcOf(w.core, i) != Idle
    ensures
      || MayDo(w, Inner(Advance(i))) || MayDo(w, Unlock(i))
      || (PcOf(w.core, i).CtorBorn? && forall g :: g !in w.core.gcs ==> MayDo(w, Inner(Begin(i, g))))
      || exists j :: MayDo(w, Inner(Collect(i, j)))
  {
    hide GuardedRun, Run, Linked, FirstGarbage, NoGarbage, CanCount, CanUncount;
    var steps, o := GuardedIsMachine(acts, w);
    var s := Under(w, o);
    assert PcOf(s, i) == PcOf(w.core, i);
    NeverStuck(steps, s, i);
    if exists j :: Enabled(s, Collect(i, j)) {
      var j :| Enabled(s, Collect(i, j));
      assert MayDo(w, Inner(Collect(i, j)));
    }
  }

  // Nothing goes wrong while the guard is kept.
  lemma GuardedNeverBroken(acts: seq<Act>, w: World)
    requires GuardedRun(acts) == There(w)
    ensures !Broken(w)
  {
    hide GuardedRun, IsInner;
    forall g, h | Active(w.core, g) && Active(w.core, h) ensures g == h { GuardedOneCollector(acts, w, g, h); }
    forall i | PcOf(w.core, i).AsgUncounted? ensures !NoSuchEntry(w.core, i) { GuardedEntry(acts, w, i); }
  }

  lemma GuardedEntry(acts: seq<Act>, w: World, i: Tid)
    requires GuardedRun(acts) == There(w) && PcOf(w.core, i).AsgUncounted?
    ensures !NoSuchEntry(w.core, i)
  {
    hide GuardedRun, CanCount;
    GuardedNeverStuck(acts, w, i);
  }
}
