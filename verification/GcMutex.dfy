// The mutex that the collector's threads run under. The first constructor makes it, after
// a test of the handle that nothing protects, so that a second one may make another; a
// collection before that runs under none. Waiting and releasing go by what the handle holds
// at that moment. Runs that keep a guard on entering are runs of the machine with one
// mutex; whenever the guard can be broken, the run can go wrong.

module GcMutex {
  import opened GcList
  import opened GcThreaded

  type Mid = nat     // a mutex; 0 is no mutex

  // Where a thread is on its way into an operation
  datatype Stage =
    | Outside                       // or inside: then the machine says where
    | Testing(op: UserPc)           // a constructor, about to test the handle for 0
    | Making(op: UserPc)            // it was 0: about to make a mutex and store it
    | Reading(op: UserPc)           // about to read the handle to wait on
    | Waiting(op: UserPc, m: Mid)   // waiting for this mutex
    | Bare                          // collecting without any mutex

  datatype World = World(
    core: State,                    // the machine; its own owner stays Free here
    hMutex: Mid,
    made: nat,                      // mutexes are numbered from 1 on
    held: map<Mid, Owner>,
    stages: map<Tid, Stage>,        // threads not in the map are outside
    handles: map<Gid, Mid>           // collectors waiting, and for which mutex
  )

  datatype Act =
    | Enter(i: Tid, op: UserPc)
    | Probe(i: Tid)
    | Make(i: Tid)
    | Read(i: Tid)
    | Lock(i: Tid)
    | Inner(step: Step)             // a step of the machine, inside an operation or unlocked
    | Unlock(i: Tid)
    | BareCollect(i: Tid, k: nat)
    | BareLeave(i: Tid)
    | GcRead(g: Gid)
    | GcLock(g: Gid)
    | GcUnlock(g: Gid)

  function StageOf(w: World, i: Tid): Stage {
    if i in w.stages then w.stages[i] else Outside
  }

  function Empty(): World {
    World(Init(), 0, 0, map[], map[], map[])
  }

  // A step that neither takes nor gives back a mutex
  predicate IsInner(s: State, step: Step) {
    && Enabled(s, step)
    && match step
       case Acquire(i, op) => false
       case Advance(i) => PcOf(s, i) != Leave
       case Collector(g) => !s.gcs[g].Want? && !s.gcs[g].Leaving?
       case _ => true
  }

  // The operations that may be entered: those on pointers when the pointers are live.
  predicate MayEnter(s: State, op: UserPc) {
    op.Ctor? || op == Scan || ((op.Copy? || op.Dtor? || op.Raw? || op.Asg?) && MayStart(s, op))
  }

  predicate MayDo(w: World, a: Act) {
    match a
    case Enter(i, op) => StageOf(w, i) == Outside && PcOf(w.core, i) == Idle && MayEnter(w.core, op)
    case Probe(i) => StageOf(w, i).Testing?
    case Make(i) => StageOf(w, i).Making?
    case Read(i) => StageOf(w, i).Reading? && (w.hMutex != 0 || StageOf(w, i).op == Scan)
    case Lock(i) => StageOf(w, i).Waiting? && StageOf(w, i).m !in w.held && MayStart(w.core, StageOf(w, i).op)
    case Inner(step) => IsInner(w.core, step)
    case Unlock(i) => PcOf(w.core, i) == Leave
    case BareCollect(i, k) => StageOf(w, i) == Bare && FirstGarbage(w.core.gclist, k)
    case BareLeave(i) => StageOf(w, i) == Bare && NoGarbage(w.core.gclist)
    case GcRead(g) => g in w.core.gcs && w.core.gcs[g].Want? && g !in w.handles && w.hMutex != 0
    case GcLock(g) => g in w.core.gcs && w.core.gcs[g].Want? && g in w.handles && w.handles[g] !in w.held
    case GcUnlock(g) => g in w.core.gcs && w.core.gcs[g].Leaving?
  }

  function To(w: World, i: Tid, stage: Stage): World {
    w.(stages := w.stages[i := stage])
  }

  // ReleaseMutex(hMutex): without effect if someone else holds that mutex, or nobody
  function Released(w: World, o: Owner): map<Mid, Owner> {
    if w.hMutex in w.held && w.held[w.hMutex] == o then w.held - {w.hMutex} else w.held
  }

  function Do(w: World, a: Act): World
    requires MayDo(w, a)
  {
    match a
    case Enter(i, op) => To(w, i, if op.Ctor? then Testing(op) else Reading(op))
    case Probe(i) => To(w, i, if w.hMutex == 0 then Making(StageOf(w, i).op) else Reading(StageOf(w, i).op))
    case Make(i) => To(w.(hMutex := w.made + 1, made := w.made + 1), i, Reading(StageOf(w, i).op))
    case Read(i) => To(w, i, if w.hMutex == 0 then Bare else Waiting(StageOf(w, i).op, w.hMutex))
    case Lock(i) =>
      var op := StageOf(w, i).op;
      To(w.(core := Begun(w.core, i, op), held := w.held[StageOf(w, i).m := User(i)]), i, Outside)
    case Inner(step) => w.(core := Apply(w.core, step))
    case Unlock(i) => w.(core := At(w.core, i, Idle), held := Released(w, User(i)))
    case BareCollect(i, k) => w.(core := Freeing(w.core, k))
    case BareLeave(i) => To(w, i, Outside)
    case GcRead(g) => w.(handles := w.handles[g := w.hMutex])
    case GcLock(g) =>
      w.(core := GcAt(w.core, g, Scanning(w.core.gcs[g].last)), held := w.held[w.handles[g] := Gc(g)],
         handles := w.handles - {g})
    case GcUnlock(g) =>
      var last := w.core.gcs[g].last;
      w.(core := GcAt(w.core, g, if last == Looping then GcPc.Test else Close(last.seen)), held := Released(w, Gc(g)))
  }

  function Begun(s: State, i: Tid, op: UserPc): State {
    At(s.(created := s.created + if Creates(op) then 1 else 0), i, op)
  }

  function GcAt(s: State, g: Gid, pc: GcPc): State {
    s.(gcs := s.gcs[g := pc])
  }

  datatype Reach = Nowhere | There(world: World)

  // The world after some acts from the start, if each of them was possible in its turn
  function RunOf(acts: seq<Act>): Reach {
    if acts == [] then There(Empty())
    else
      var a := acts[|acts| - 1];
      match RunOf(acts[..|acts| - 1])
      case Nowhere => Nowhere
      case There(w) => if MayDo(w, a) then There(Do(w, a)) else Nowhere
  }

  // ---- the guard

  predicate Constructing(stage: Stage) {
    stage.Testing? || stage.Making?
  }

  // While there is no mutex, a constructor is entered only with every other thread outside,
  // and a collection only with no thread in a constructor.
  ghost predicate Guard(w: World, a: Act) {
    a.Enter? && w.hMutex == 0 ==>
      if a.op.Ctor? then forall j :: StageOf(w, j) == Outside
      else forall j :: !Constructing(StageOf(w, j))
  }

  // The world after acts that were all possible and kept the guard
  ghost function GuardedRun(acts: seq<Act>): Reach {
    if acts == [] then There(Empty())
    else
      var a := acts[|acts| - 1];
      match GuardedRun(acts[..|acts| - 1])
      case Nowhere => Nowhere
      case There(w) => if MayDo(w, a) && Guard(w, a) then There(Do(w, a)) else Nowhere
  }

  lemma {:induction false} GuardedIsRun(acts: seq<Act>)
    requires GuardedRun(acts).There?
    ensures RunOf(acts) == GuardedRun(acts)
  {
    hide MayDo, Do, Guard;
    if acts != [] { GuardedIsRun(acts[..|acts| - 1]); }
  }

  // ---- what can go wrong

  // Two collectors at once, or an assignment that goes to an entry that is not there
  ghost predicate Broken(w: World) {
    || (exists g, h :: g != h && Active(w.core, g) && Active(w.core, h))
    || (exists i :: NoSuchEntry(w.core, i))
  }

  predicate NoSuchEntry(s: State, i: Tid) {
    var pc := PcOf(s, i);
    pc.AsgUncounted? && pc.q in s.live && !CanCount(s.gclist, s.live[pc.q])
  }
}
