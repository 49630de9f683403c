// How runs go on where the guard is broken: two constructors make a mutex each, or a
// collection runs under none.

module GcRaces {
  import opened GcList
  import opened GcThreaded
  import opened GcMutex
  import opened GcLink
  import opened GcGuarded

  lemma Go(acts: seq<Act>, w: World, a: Act) returns (acts': seq<Act>)
    requires RunOf(acts) == There(w) && MayDo(w, a)
    ensures acts' == acts + [a] && RunOf(acts') == There(Do(w, a))
  {
    hide MayDo, Do;
    acts' := acts + [a];
    assert acts'[..|acts|] == acts;
  }

  // A constructor that finds no mutex is about to make one.
  lemma GoMaking(acts: seq<Act>, w: World, i: Tid) returns (acts': seq<Act>, w': World)
    requires RunOf(acts) == There(w) && w.hMutex == 0 && Constructing(StageOf(w, i))
    ensures acts <= acts' && RunOf(acts') == There(w')
    ensures w' == w.(stages := w'.stages) && StageOf(w', i) == Making(StageOf(w, i).op)
    ensures forall j :: j != i ==> StageOf(w', j) == StageOf(w, j)
  {
    hide RunOf;
    acts', w' := acts, w;
    if StageOf(w, i).Testing? {
      acts' := Go(acts, w, Probe(i));
      w' := Do(w, Probe(i));
    }
  }

  // It makes one and waits for it.
  lemma GoWaiting(acts: seq<Act>, w: World, i: Tid) returns (acts': seq<Act>, w': World)
    requires RunOf(acts) == There(w) && StageOf(w, i).Making?
    ensures acts <= acts' && RunOf(acts') == There(w')
    ensures w' == w.(hMutex := w.made + 1, made := w.made + 1, stages := w'.stages)
    ensures StageOf(w', i) == Waiting(StageOf(w, i).op, w.made + 1)
    ensures forall j :: j != i ==> StageOf(w', j) == StageOf(w, j)
  {
    hide RunOf;
    acts' := Go(acts, w, Make(i));
    var w1 := Do(w, Make(i));
    acts' := Go(acts', w1, Read(i));
    w' := Do(w1, Read(i));
  }

  // It has the mutex.
  lemma GoLocked(acts: seq<Act>, w: World, i: Tid) returns (acts': seq<Act>, w': World)
    requires RunOf(acts) == There(w) && MayDo(w, Lock(i))
    ensures acts <= acts' && RunOf(acts') == There(w')
    ensures w' == w.(core := Begun(w.core, i, StageOf(w, i).op), stages := w'.stages,
                     held := w.held[StageOf(w, i).m := User(i)])
    ensures StageOf(w', i) == Outside
    ensures forall j :: j != i ==> StageOf(w', j) == StageOf(w, j)
  {
    hide RunOf;
    acts' := Go(acts, w, Lock(i));
    w' := Do(w, Lock(i));
  }

  // What a constructor does up to the test of the collector's handle
  lemma GoBorn(acts: seq<Act>, w: World, i: Tid) returns (acts': seq<Act>, w': World)
    requires RunOf(acts) == There(w) && PcOf(w.core, i).Ctor?
    ensures acts <= acts' && RunOf(acts') == There(w')
    ensures var p, t := PcOf(w.core, i).p, PcOf(w.core, i).t;
      && w' == w.(core := w'.core) && PcOf(w'.core, i) == CtorBorn(p)
      && w'.core.live == w.core.live[p := t] && w'.core.gclist == Referenced(w.core.gclist, t)
    ensures w'.core.gcs == w.core.gcs && w'.core.hThrd == w.core.hThrd
    ensures forall j :: j != i ==> PcOf(w'.core, j) == PcOf(w.core, j)
  {
    hide RunOf, Counted, Find;
    var a := Inner(Advance(i));
    acts' := Go(acts, w, a);
    var w1 := Do(w, a);
    acts' := Go(acts', w1, a);
    var w2 := Do(w1, a);
    acts' := Go(acts', w2, a);
    w' := Do(w2, a);
  }

  // Each of the two holds a mutex, and the handle is that of the second.
  predicate AMutexEach(w: World, made: nat, i: Tid, j: Tid) {
    w.hMutex == made + 2 && w.held == map[made + 1 := User(i), made + 2 := User(j)]
  }

  // Two constructors that both find no mutex make one each, and are both inside.
  lemma TwoInside(acts: seq<Act>, w: World, i: Tid, j: Tid) returns (acts': seq<Act>, w': World)
    requires RunOf(acts) == There(w) && w.hMutex == 0 && w.core == Init() && w.held == map[] && i != j
    requires Constructing(StageOf(w, i)) && StageOf(w, i).op.Ctor?
    requires Constructing(StageOf(w, j)) && StageOf(w, j).op.Ctor?
    ensures acts <= acts' && RunOf(acts') == There(w')
    ensures PcOf(w'.core, i) == StageOf(w, i).op && PcOf(w'.core, j) == StageOf(w, j).op
    ensures w'.core.gcs == map[] && w'.core.hThrd == 0 && w'.core.gclist == [] && w'.core.live == map[]
    ensures AMutexEach(w', w.made, i, j) && StageOf(w', i) == StageOf(w', j) == Outside
  {
    hide RunOf, Do;
    acts', w' := GoMaking(acts, w, i);
    acts', w' := GoMaking(acts', w', j);
    acts', w' := GoWaiting(acts', w', i);
    acts', w' := GoWaiting(acts', w', j);
    acts', w' := GoLocked(acts', w', i);
    acts', w' := GoLocked(acts', w', j);
  }

  // Each begins a collector.
  lemma TwoConstructors(acts: seq<Act>, w: World, i: Tid, j: Tid) returns (acts': seq<Act>, w': World)
    requires RunOf(acts) == There(w) && w.hMutex == 0 && w.core == Init() && w.held == map[] && i != j
    requires Constructing(StageOf(w, i)) && StageOf(w, i).op.Ctor?
    requires Constructing(StageOf(w, j)) && StageOf(w, j).op.Ctor?
    ensures acts <= acts' && RunOf(acts') == There(w') && AMutexEach(w', w.made, i, j)
    ensures Broken(w') && exists g, h :: g != h && Active(w'.core, g) && Active(w'.core, h)
  {
    hide RunOf, Constructing, Referenced, Find;
    acts', w' := TwoInside(acts, w, i, j);
    acts', w' := GoBorn(acts', w', i);
    acts', w' := GoBorn(acts', w', j);
    acts' := Go(acts', w', Inner(Begin(i, 0)));
    w' := Do(w', Inner(Begin(i, 0)));
    acts' := Go(acts', w', Inner(Begin(j, 1)));
    w' := Do(w', Inner(Begin(j, 1)));
    assert Active(w'.core, 0) && Active(w'.core, 1);
  }

  // If they are given the same block, both can look before either counts: it gets two
  // entries, each with one of its two references.
  lemma TwoEntries(acts: seq<Act>, w: World, i: Tid, j: Tid) returns (acts': seq<Act>, w': World)
    requires RunOf(acts) == There(w) && w.hMutex == 0 && w.core == Init() && w.held == map[] && i != j
    requires Constructing(StageOf(w, i)) && StageOf(w, i).op.Ctor?
    requires Constructing(StageOf(w, j)) && StageOf(w, j).op.Ctor?
    requires StageOf(w, i).op.t == StageOf(w, j).op.t
    ensures acts <= acts' && RunOf(acts') == There(w')
    ensures var a, b := StageOf(w, i).op, StageOf(w, j).op;
      && w'.core.gclist == [Info(1, b.t), Info(1, a.t)]
      && w'.core.live == map[a.p := a.t][b.p := b.t]
    ensures AMutexEach(w', w.made, i, j) && StageOf(w', j) == Outside
    ensures PcOf(w'.core, j).CtorBorn? && w'.core.gcs == map[] && w'.core.hThrd == 0
  {
    hide RunOf, Constructing;
    acts', w' := TwoInside(acts, w, i, j);
    acts' := Go(acts', w', Inner(Advance(i)));
    w' := Do(w', Inner(Advance(i)));
    acts' := Go(acts', w', Inner(Advance(j)));
    w' := Do(w', Inner(Advance(j)));
    acts', w' := GoPushed(acts', w', i);
    acts', w' := GoPushed(acts', w', j);
  }

  lemma GoPushed(acts: seq<Act>, w: World, i: Tid) returns (acts': seq<Act>, w': World)
    requires RunOf(acts) == There(w) && PcOf(w.core, i).CtorLooked? && !PcOf(w.core, i).found
    ensures acts <= acts' && RunOf(acts') == There(w')
    ensures var p, t := PcOf(w.core, i).p, PcOf(w.core, i).t;
      && w'.core.gclist == [Info(1, t)] + w.core.gclist && w'.core.live == w.core.live[p := t]
      && w' == w.(core := w'.core) && PcOf(w'.core, i) == CtorBorn(p)
    ensures w'.core.gcs == w.core.gcs && w'.core.hThrd == w.core.hThrd
    ensures forall j :: j != i ==> PcOf(w'.core, j) == PcOf(w.core, j)
  {
    hide RunOf;
    acts' := Go(acts, w, Inner(Advance(i)));
    w' := Do(w, Inner(Advance(i)));
    acts' := Go(acts', w', Inner(Advance(i)));
    w' := Do(w', Inner(Advance(i)));
  }

  // A thread that reads the handle before there is a mutex collects without one.
  lemma GoBare(acts: seq<Act>, w: World, b: Tid) returns (acts': seq<Act>, w': World)
    requires RunOf(acts) == There(w) && w.hMutex == 0
    requires StageOf(w, b) == Bare || StageOf(w, b) == Reading(Scan)
    ensures acts <= acts' && RunOf(acts') == There(w')
    ensures w' == w.(stages := w'.stages) && StageOf(w', b) == Bare
    ensures forall j :: j != b ==> StageOf(w', j) == StageOf(w, j)
  {
    hide RunOf;
    acts', w' := acts, w;
    if StageOf(w, b) != Bare {
      acts' := Go(acts, w, Read(b));
      w' := Do(w, Read(b));
    }
  }

  // A constructor runs to its end: its pointer is live, and begins collector 0.
  lemma GoConstructed(acts: seq<Act>, w: World, i: Tid) returns (acts': seq<Act>, w': World)
    requires RunOf(acts) == There(w) && w.hMutex == 0 && w.core == Init() && w.held == map[]
    requires Constructing(StageOf(w, i)) && StageOf(w, i).op.Ctor?
    ensures acts <= acts' && RunOf(acts') == There(w')
    ensures var p, t := StageOf(w, i).op.p, StageOf(w, i).op.t;
      w'.core.live == map[p := t] && w'.core.gclist == [Info(1, t)]
    ensures w'.hMutex == w.made + 1 && w'.held == map[] && StageOf(w', i) == Outside && PcOf(w'.core, i) == Idle
    ensures forall j :: j != i ==> StageOf(w', j) == StageOf(w, j)
  {
    hide RunOf;
    acts', w' := GoMaking(acts, w, i);
    acts', w' := GoWaiting(acts', w', i);
    acts', w' := GoLocked(acts', w', i);
    acts', w' := GoBorn(acts', w', i);
    assert w'.held - {w'.hMutex} == map[];
    acts', w' := GoBegun(acts', w', i);
  }

  lemma GoBegun(acts: seq<Act>, w: World, i: Tid) returns (acts': seq<Act>, w': World)
    requires RunOf(acts) == There(w) && PcOf(w.core, i).CtorBorn? && w.core.gcs == map[] && w.core.hThrd == 0
    requires w.hMutex in w.held && w.held[w.hMutex] == User(i)
    ensures acts <= acts' && RunOf(acts') == There(w')
    ensures w' == w.(core := w'.core, held := w.held - {w.hMutex}) && PcOf(w'.core, i) == Idle
    ensures w'.core.live == w.core.live && w'.core.gclist == w.core.gclist
  {
    hide RunOf;
    acts' := Go(acts, w, Inner(Begin(i, 0)));
    w' := Do(w, Inner(Begin(i, 0)));
    acts' := Go(acts', w', Inner(Advance(i)));
    w' := Do(w', Inner(Advance(i)));
    acts' := Go(acts', w', Unlock(i));
    w' := Do(w', Unlock(i));
  }

  // With another thread collecting without a mutex, an assignment of the pointer to itself
  // finds its entry gone. The block, unless it is the null pointer, has been freed, and the
  // pointer is live.
  lemma BareCollection(acts: seq<Act>, w: World, i: Tid, b: Tid) returns (acts': seq<Act>, w': World)
    requires RunOf(acts) == There(w) && w.hMutex == 0 && w.core == Init() && w.held == map[] && i != b
    requires Constructing(StageOf(w, i)) && StageOf(w, i).op.Ctor?
    requires StageOf(w, b) == Bare || StageOf(w, b) == Reading(Scan)
    ensures acts <= acts' && RunOf(acts') == There(w') && Broken(w') && NoSuchEntry(w'.core, i)
    ensures var p, t := StageOf(w, i).op.p, StageOf(w, i).op.t;
      w'.core.live == map[p := t] && (t != 0 ==> t in w'.core.freed)
  {
    var op := StageOf(w, i).op;
    hide RunOf, Do, MayDo, Broken, NoSuchEntry, Constructing;
    acts', w' := GoBare(acts, w, b);
    acts', w' := GoConstructed(acts', w', i);
    acts', w' := GoUncounted(acts', w', i, op.p, op.t);
    acts', w' := GoDropped(acts', w', i, b, op.p);
  }

  // The assignment uncounts the pointer's block.
  lemma GoUncounted(acts: seq<Act>, w: World, i: Tid, p: Ptr, t: Addr) returns (acts': seq<Act>, w': World)
    requires RunOf(acts) == There(w) && w.core.live == map[p := t] && w.core.gclist == [Info(1, t)]
    requires w.hMutex != 0 && w.held == map[] && StageOf(w, i) == Outside && PcOf(w.core, i) == Idle
    ensures acts <= acts' && RunOf(acts') == There(w')
    ensures w'.core.live == map[p := t] && w'.core.gclist == [Info(0, t)]
    ensures PcOf(w'.core, i) == AsgUncounted(p, p)
    ensures forall j :: j != i ==> StageOf(w', j) == StageOf(w, j)
  {
    hide RunOf;
    acts', w' := GoInside(acts, w, i, Asg(p, p));
    acts' := Go(acts', w', Inner(Advance(i)));
    w' := Do(w', Inner(Advance(i)));
  }

  // A thread enters an operation while its mutex is free, and is inside.
  lemma GoInside(acts: seq<Act>, w: World, i: Tid, op: UserPc) returns (acts': seq<Act>, w': World)
    requires RunOf(acts) == There(w) && w.hMutex != 0 && w.hMutex !in w.held
    requires StageOf(w, i) == Outside && PcOf(w.core, i) == Idle
    requires !op.Ctor? && MayEnter(w.core, op) && MayStart(w.core, op)
    ensures acts <= acts' && RunOf(acts') == There(w')
    ensures w' == w.(core := Begun(w.core, i, op), stages := w'.stages, held := w.held[w.hMutex := User(i)])
    ensures StageOf(w', i) == Outside && forall j :: j != i ==> StageOf(w', j) == StageOf(w, j)
  {
    hide RunOf, MayEnter, MayStart, Begun;
    acts' := Go(acts, w, Enter(i, op));
    w' := Do(w, Enter(i, op));
    acts' := Go(acts', w', Read(i));
    w' := Do(w', Read(i));
    acts', w' := GoLocked(acts', w', i);
  }

  lemma GoDropped(acts: seq<Act>, w: World, i: Tid, b: Tid, p: Ptr) returns (acts': seq<Act>, w': World)
    requires RunOf(acts) == There(w) && StageOf(w, b) == Bare && PcOf(w.core, i) == AsgUncounted(p, p)
    requires p in w.core.live && w.core.gclist == [Info(0, w.core.live[p])]
    ensures acts <= acts' && RunOf(acts') == There(w') && Broken(w') && NoSuchEntry(w'.core, i)
    ensures w'.core.live == w.core.live && (w.core.live[p] != 0 ==> w.core.live[p] in w'.core.freed)
  {
    hide RunOf;
    acts' := Go(acts, w, BareCollect(b, 0));
    w' := Do(w, BareCollect(b, 0));
    assert w.core.gclist[1..] == [] && Dropped([], w.core.live[p]) == [];
    assert w'.core.gclist == [];
    assert NoSuchEntry(w'.core, i);
  }

  // Two entries for one block: destroying one of the two pointers uncounts one entry, and a
  // collection then drops both and frees the block, though the other pointer is live.
  lemma FreedUnderPointer(acts: seq<Act>, w: World, i: Tid, j: Tid) returns (acts': seq<Act>, w': World)
    requires RunOf(acts) == There(w) && w.hMutex == 0 && w.core == Init() && w.held == map[] && i != j
    requires Constructing(StageOf(w, i)) && StageOf(w, i).op.Ctor?
    requires Constructing(StageOf(w, j)) && StageOf(w, j).op.Ctor?
    requires StageOf(w, i).op.t == StageOf(w, j).op.t != 0 && StageOf(w, i).op.p != StageOf(w, j).op.p
    ensures acts <= acts' && RunOf(acts') == There(w')
    ensures var p, t := StageOf(w, i).op.p, StageOf(w, i).op.t;
      w'.core.live == map[p := t] && w'.core.gclist == [] && t in w'.core.freed
  {
    var a, b := StageOf(w, i).op, StageOf(w, j).op;
    hide RunOf, Do, MayDo, Constructing;
    acts', w' := TwoEntries(acts, w, i, j);
    acts', w' := GoBegun(acts', w', j);
    acts', w' := GoDestroyed(acts', w', j, b.p);
    assert w'.core.live == map[a.p := a.t];
    acts', w' := GoCollected(acts', w', j, a.t);
  }

  // A pointer is destroyed under the first entry of its block.
  lemma GoDestroyed(acts: seq<Act>, w: World, i: Tid, p: Ptr) returns (acts': seq<Act>, w': World)
    requires RunOf(acts) == There(w) && w.hMutex != 0 && w.hMutex !in w.held
    requires StageOf(w, i) == Outside && PcOf(w.core, i) == Idle
    requires p in w.core.live && w.core.gclist != [] && w.core.gclist[0] == Info(1, w.core.live[p])
    ensures acts <= acts' && RunOf(acts') == There(w')
    ensures w'.hMutex == w.hMutex && w'.held == w.held && StageOf(w', i) == Outside && PcOf(w'.core, i) == Idle
    ensures w'.core.live == w.core.live - {p}
    ensures w'.core.gclist == w.core.gclist[0 := Info(0, w.core.live[p])]
  {
    hide RunOf;
    acts', w' := GoInside(acts, w, i, Dtor(p));
    acts' := Go(acts', w', Inner(Advance(i)));
    w' := Do(w', Inner(Advance(i)));
    assert w'.core.gclist == w.core.gclist[0 := Info(0, w.core.live[p])];
    acts', w' := GoGone(acts', w', i);
    assert w'.held == w.held;
  }

  lemma GoGone(acts: seq<Act>, w: World, i: Tid) returns (acts': seq<Act>, w': World)
    requires RunOf(acts) == There(w) && PcOf(w.core, i).DtorUncounted? && PcOf(w.core, i).p in w.core.live
    requires w.hMutex in w.held && w.held[w.hMutex] == User(i)
    ensures acts <= acts' && RunOf(acts') == There(w')
    ensures w' == w.(core := w'.core, held := w.held - {w.hMutex}) && PcOf(w'.core, i) == Idle
    ensures w'.core.live == w.core.live - {PcOf(w.core, i).p} && w'.core.gclist == w.core.gclist
  {
    hide RunOf;
    acts' := Go(acts, w, Inner(Advance(i)));
    w' := Do(w, Inner(Advance(i)));
    acts' := Go(acts', w', Unlock(i));
    w' := Do(w', Unlock(i));
  }

  // A collection finds the first of two entries of a block unreferenced.
  lemma GoCollected(acts: seq<Act>, w: World, i: Tid, t: Addr) returns (acts': seq<Act>, w': World)
    requires RunOf(acts) == There(w) && w.hMutex != 0 && w.hMutex !in w.held && t != 0
    requires StageOf(w, i) == Outside && PcOf(w.core, i) == Idle && w.core.gclist == [Info(0, t), Info(1, t)]
    ensures acts <= acts' && RunOf(acts') == There(w')
    ensures w'.core.live == w.core.live && w'.core.gclist == [] && t in w'.core.freed
  {
    hide RunOf;
    acts', w' := GoInside(acts, w, i, Scan);
    acts' := Go(acts', w', Inner(Collect(i, 0)));
    var l := w'.core.gclist;
    w' := Do(w', Inner(Collect(i, 0)));
    assert l[1..] == [Info(1, t)] && l[1..][1..] == [] && Dropped([], t) == [] == Dropped(l[1..], t);
  }

  // Wherever a thread that has kept the guard so far can break it by entering, the run can
  // go on to two collectors or to an entry that is not there.
  lemma BreakingTheGuard(acts: seq<Act>, w: World, j: Tid, op: UserPc) returns (acts': seq<Act>, w': World)
    requires GuardedRun(acts) == There(w)
    requires MayDo(w, Enter(j, op)) && !Guard(w, Enter(j, op))
    ensures acts + [Enter(j, op)] <= acts' && RunOf(acts') == There(w') && Broken(w')
  {
    hide RunOf, GuardedRun, Broken, MutexOk, Inv;
    GuardedIsRun(acts);
    var o := GuardedInv(acts, w);
    var w1 := Do(w, Enter(j, op));
    acts' := Go(acts, w, Enter(j, op));
    if op.Ctor? {
      var i :| StageOf(w, i) != Outside;
      if Constructing(StageOf(w, i)) {
        acts', w' := TwoConstructors(acts', w1, i, j);
      } else {
        acts', w' := BareCollection(acts', w1, j, i);
      }
    } else {
      var i :| Constructing(StageOf(w, i));
      acts', w' := BareCollection(acts', w1, i, j);
    }
  }

  // From the very start: two threads that enter constructors at once can end with two
  // collectors, and given one block, with it freed under a pointer.
  lemma RaceFromTheStart(i: Tid, j: Tid, p: Ptr, q: Ptr, t: Addr)
    returns (one: seq<Act>, other: seq<Act>, v: World, w: World)
    requires i != j && p != q && t != 0
    ensures var both := [Enter(i, Ctor(p, t)), Enter(j, Ctor(q, t))];
      && both <= one && RunOf(one) == There(v)
      && (exists g, h :: g != h && Active(v.core, g) && Active(v.core, h))
      && both <= other && RunOf(other) == There(w)
      && w.core.live == map[p := t] && t in w.core.freed
  {
    hide RunOf, Begun;
    var a, b := Enter(i, Ctor(p, t)), Enter(j, Ctor(q, t));
    NoActs();
    var acts := Go([], Empty(), a);
    var w1 := Do(Empty(), a);
    acts := Go(acts, w1, b);
    var w2 := Do(w1, b);
    one, v := TwoConstructors(acts, w2, i, j);
    other, w := FreedUnderPointer(acts, w2, i, j);
  }

  lemma NoActs()
    ensures RunOf([]) == There(Empty())
  {
  }
}
