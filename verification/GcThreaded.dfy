// The collector with a background thread, as a state machine. Any number of user threads
// create, copy, assign and destroy counted pointers; every operation runs under one mutex,
// in the small steps below. The collector thread tests the instance counter and resets the
// thread handle without the mutex, as the source does. How the threads come by the mutex is
// the subject of GcMutex.

module GcThreaded {
  import opened GcList

  type Ptr = nat     // a counted pointer
  type Tid = nat     // a user thread
  type Gid = nat     // a collector thread

  // What a user thread is about to do while it holds the mutex
  datatype UserPc =
    | Idle
    | Ctor(p: Ptr, t: Addr)             // look the block up
    | CtorLooked(p: Ptr, t: Addr, found: bool)  // count it, by a new entry if it was not found
    | CtorCounted(p: Ptr, t: Addr)      // store the address, bump instCount
    | CtorBorn(p: Ptr)                  // test hThrd
    | CtorBegun(p: Ptr, g: Gid)         // collector begun, its handle not stored yet
    | Copy(p: Ptr, q: Ptr)
    | CopyCounted(p: Ptr, t: Addr)
    | Dtor(p: Ptr)                      // uncount the block
    | DtorUncounted(p: Ptr)             // drop instCount
    | Raw(p: Ptr, t: Addr)              // assign a raw pointer: uncount the old block
    | RawUncounted(p: Ptr, t: Addr)     // look the new one up
    | RawLooked(p: Ptr, t: Addr, found: bool)   // count it
    | Asg(p: Ptr, q: Ptr)               // assign another counted pointer
    | AsgUncounted(p: Ptr, q: Ptr)
    | Counted2(p: Ptr, t: Addr)         // store the address
    | Scan                              // a user's collect()
    | Leave                             // release the mutex

  // Where a collector thread is; `last` once it has seen no instances, with the number of
  // pointers created by then
  datatype GcPc =
    | Test
    | Want(last: Phase)
    | Scanning(last: Phase)
    | Leaving(last: Phase)
    | Close(seen: nat)                  // CloseHandle
    | Reset(seen: nat)                  // hThrd = 0
    | Gone(seen: nat)

  datatype Phase = Looping | Final(seen: nat)

  datatype Owner = Free | User(i: Tid) | Gc(g: Gid)

  datatype State = State(
    gclist: seq<Info>,
    instCount: int,
    hThrd: nat,                         // 0, or one more than the collector's number
    owner: Owner,
    users: map<Tid, UserPc>,            // threads not in the map are idle
    gcs: map<Gid, GcPc>,                // every collector thread ever begun
    live: map<Ptr, Addr>,
    owned: set<Addr>,
    freed: multiset<Addr>,
    created: nat                        // steps that begin or complete a new pointer
  )

  function PcOf(s: State, i: Tid): UserPc {
    if i in s.users then s.users[i] else Idle
  }

  function Init(): State {
    State([], 0, 0, Free, map[], map[], map[], {}, multiset{}, 0)
  }

  datatype Step =
    | Acquire(i: Tid, op: UserPc)
    | Advance(i: Tid)
    | Begin(i: Tid, g: Gid)
    | Collect(i: Tid, k: nat)           // a user's scan finds entry k unreferenced
    | Collector(g: Gid)
    | GcCollect(g: Gid, k: nat)         // a collector's scan finds entry k unreferenced

  // The scan stops at the first entry without references.
  predicate FirstGarbage(l: seq<Info>, k: nat) {
    k < |l| && l[k].refcount == 0 && forall j :: 0 <= j < k ==> l[j].refcount > 0
  }

  predicate NoGarbage(l: seq<Info>) {
    forall j :: 0 <= j < |l| ==> l[j].refcount > 0
  }

  // The operations a thread may start once it has the mutex: pointers are live when used,
  // new when created, and raw addresses are not those of freed blocks.
  predicate MayStart(s: State, op: UserPc) {
    match op
    case Ctor(p, t) => p !in s.live && t !in s.freed
    case Copy(p, q) => p !in s.live && q in s.live
    case Dtor(p) => p in s.live
    case Raw(p, t) => p in s.live && t !in s.freed
    case Asg(p, q) => p in s.live && q in s.live
    case Scan => true
    case _ => false
  }

  predicate Creates(op: UserPc) {
    op.Ctor? || op.Copy?
  }

  // The block's entry exists and is still counted.
  predicate CanUncount(l: seq<Info>, a: Addr) {
    Find(l, a) < |l| && l[Find(l, a)].refcount > 0
  }

  // It exists.
  predicate CanCount(l: seq<Info>, a: Addr) {
    Find(l, a) < |l|
  }

  predicate Enabled(s: State, step: Step) {
    match step
    case Acquire(i, op) => s.owner == Free && PcOf(s, i) == Idle && MayStart(s, op)
    case Advance(i) =>
      (match PcOf(s, i)
       case Idle => false
       case CtorBorn(p) => s.hThrd != 0
       case CtorLooked(p, t, found) => found ==> CanCount(s.gclist, t)
       case Copy(p, q) => q in s.live && CanCount(s.gclist, s.live[q])
       case Dtor(p) => p in s.live && CanUncount(s.gclist, s.live[p])
       case DtorUncounted(p) => p in s.live
       case Raw(p, t) => p in s.live && CanUncount(s.gclist, s.live[p])
       case Asg(p, q) => p in s.live && CanUncount(s.gclist, s.live[p])
       case RawLooked(p, t, found) => found ==> CanCount(s.gclist, t)
       case AsgUncounted(p, q) => q in s.live && CanCount(s.gclist, s.live[q])
       case Scan => NoGarbage(s.gclist)
       case _ => true)
    case Begin(i, g) => PcOf(s, i).CtorBorn? && s.hThrd == 0 && g !in s.gcs
    case Collect(i, k) => PcOf(s, i) == Scan && FirstGarbage(s.gclist, k)
    case Collector(g) =>
      g in s.gcs &&
      (match s.gcs[g]
       case Want(_) => s.owner == Free
       case Scanning(_) => NoGarbage(s.gclist)
       case Gone(_) => false
       case _ => true)
    case GcCollect(g, k) => g in s.gcs && s.gcs[g].Scanning? && FirstGarbage(s.gclist, k)
  }

  function At(s: State, i: Tid, pc: UserPc): State {
    s.(users := s.users[i := pc])
  }

  // One more reference to a block that was found, or was not
  function Referencing(s: State, t: Addr, found: bool): State
    requires found ==> CanCount(s.gclist, t)
  {
    s.(gclist := if found then Counted(s.gclist, t) else [Info(1, t)] + s.gclist, owned := Owned(s.owned, t))
  }

  function Freeing(s: State, k: nat): State
    requires k < |s.gclist|
  {
    var t := s.gclist[k].memPtr;
    s.(gclist := Dropped(s.gclist, t), freed := Freed(s.freed, t))
  }

  // What a user's step does to what the threads share
  function Shared(s: State, i: Tid): State
    requires Enabled(s, Advance(i))
  {
    match PcOf(s, i)
    case CtorLooked(p, t, found) => Referencing(s, t, found)
    case CtorCounted(p, t) => s.(live := s.live[p := t], instCount := s.instCount + 1, created := s.created + 1)
    case CtorBegun(p, g) => s.(hThrd := g + 1)
    case Copy(p, q) => s.(gclist := Counted(s.gclist, s.live[q]))
    case CopyCounted(p, t) => s.(live := s.live[p := t], instCount := s.instCount + 1, created := s.created + 1)
    case Dtor(p) => s.(gclist := Uncounted(s.gclist, s.live[p]))
    case DtorUncounted(p) => s.(live := s.live - {p}, instCount := s.instCount - 1)
    case Raw(p, t) => s.(gclist := Uncounted(s.gclist, s.live[p]))
    case RawLooked(p, t, found) => Referencing(s, t, found)
    case Asg(p, q) => s.(gclist := Uncounted(s.gclist, s.live[p]))
    case AsgUncounted(p, q) => s.(gclist := Counted(s.gclist, s.live[q]))
    case Counted2(p, t) => s.(live := s.live[p := t])
    case Leave => s.(owner := Free)
    case _ => s
  }

  // What the thread is about to do after it
  function NextPc(s: State, i: Tid): UserPc
    requires Enabled(s, Advance(i))
  {
    match PcOf(s, i)
    case Ctor(p, t) => CtorLooked(p, t, CanCount(s.gclist, t))
    case CtorLooked(p, t, found) => CtorCounted(p, t)
    case CtorCounted(p, t) => CtorBorn(p)
    case Copy(p, q) => CopyCounted(p, s.live[q])
    case Dtor(p) => DtorUncounted(p)
    case Raw(p, t) => RawUncounted(p, t)
    case RawUncounted(p, t) => RawLooked(p, t, CanCount(s.gclist, t))
    case RawLooked(p, t, found) => Counted2(p, t)
    case Asg(p, q) => AsgUncounted(p, q)
    case AsgUncounted(p, q) => Counted2(p, s.live[q])
    case Leave => Idle
    case _ => Leave
  }

  function AdvanceUser(s: State, i: Tid): State
    requires Enabled(s, Advance(i))
  {
    At(Shared(s, i), i, NextPc(s, i))
  }

  function AdvanceCollector(s: State, g: Gid): State
    requires Enabled(s, Collector(g))
  {
    match s.gcs[g]
    case Test => s.(gcs := s.gcs[g := Want(if s.instCount > 0 then Looping else Final(s.created))])
    case Want(last) => s.(gcs := s.gcs[g := Scanning(last)], owner := Gc(g))
    case Scanning(last) => s.(gcs := s.gcs[g := Leaving(last)])
    case Leaving(last) =>
      s.(gcs := s.gcs[g := if last == Looping then Test else Close(last.seen)], owner := Free)
    case Close(seen) => s.(gcs := s.gcs[g := Reset(seen)])
    case Reset(seen) => s.(gcs := s.gcs[g := Gone(seen)], hThrd := 0)
    case Gone(seen) => s
  }

  function Apply(s: State, step: Step): State
    requires Enabled(s, step)
  {
    match step
    case Acquire(i, op) =>
      At(s.(owner := User(i), created := s.created + if Creates(op) then 1 else 0), i, op)
    case Advance(i) => AdvanceUser(s, i)
    case Begin(i, g) => At(s.(gcs := s.gcs[g := Test]), i, CtorBegun(PcOf(s, i).p, g))
    case Collect(i, k) => Freeing(s, k)
    case Collector(g) => AdvanceCollector(s, g)
    case GcCollect(g, k) => Freeing(s, k)
  }

  // ---- the invariant

  // The mutex is held by exactly the thread inside an operation.
  ghost predicate MutexOk(s: State) {
    && (forall i :: PcOf(s, i) != Idle <==> s.owner == User(i))
    && (forall g :: g in s.gcs ==> (s.gcs[g].Scanning? || s.gcs[g].Leaving? <==> s.owner == Gc(g)))
    && (s.owner.Gc? ==> s.owner.g in s.gcs)
  }

  // What the operation under way has already counted, or no longer counts
  function Plus(pc: UserPc): Maybe {
    match pc
    case CtorCounted(p, t) => Just(t)
    case CopyCounted(p, t) => Just(t)
    case Counted2(p, t) => Just(t)
    case _ => Nothing
  }

  function Minus(s: State, pc: UserPc): Maybe {
    if (pc.DtorUncounted? || pc.RawUncounted? || pc.RawLooked? || pc.AsgUncounted? || pc.Counted2?) && pc.p in s.live
    then Just(s.live[pc.p]) else Nothing
  }

  function Current(s: State): UserPc {
    if s.owner.User? then PcOf(s, s.owner.i) else Idle
  }

  // The pointers an operation works on are live, or not yet.
  ghost predicate OperandsOk(s: State, pc: UserPc) {
    match pc
    case Ctor(p, t) => p !in s.live && t !in s.freed
    case CtorLooked(p, t, found) => p !in s.live && t !in s.freed && (found <==> CanCount(s.gclist, t))
    case CtorCounted(p, t) => p !in s.live
    case CtorBorn(p) => p in s.live
    case CtorBegun(p, g) => p in s.live
    case Copy(p, q) => p !in s.live && q in s.live
    case CopyCounted(p, t) => p !in s.live
    case Dtor(p) => p in s.live
    case DtorUncounted(p) => p in s.live
    case Raw(p, t) => p in s.live && t !in s.freed
    case RawUncounted(p, t) => p in s.live && t !in s.freed
    case RawLooked(p, t, found) => p in s.live && t !in s.freed && (found <==> CanCount(s.gclist, t))
    case Asg(p, q) => p in s.live && q in s.live
    case AsgUncounted(p, q) => p in s.live && q in s.live
    case Counted2(p, t) => p in s.live
    case _ => true
  }

  // Counts are exact up to the operation under way, and instCount is the number of pointers.
  ghost predicate CountingOk(s: State) {
    && OperandsOk(s, Current(s))
    && Sound(s.gclist, s.live, Plus(Current(s)), Minus(s, Current(s)), s.owned, s.freed)
    && s.instCount == |s.live|
  }

  predicate Active(s: State, g: Gid) {
    g in s.gcs && !s.gcs[g].Gone?
  }

  // At most one collector is active, hThrd names it, and hThrd is zero otherwise; between a
  // collector's beginning and the storing of its handle, it has not seen instCount at zero.
  ghost predicate HandleOk(s: State) {
    && (forall g: Gid, h: Gid :: Active(s, g) && Active(s, h) ==> g == h)
    && (if Current(s).CtorBegun? then
          s.hThrd == 0 && Active(s, Current(s).g)
          && (s.gcs[Current(s).g] == Test || s.gcs[Current(s).g] == Want(Looping))
        else
          (forall g: Gid :: Active(s, g) ==> s.hThrd == g + 1)
          && (s.hThrd != 0 ==> Active(s, s.hThrd - 1)))
  }

  // How many pointers had been created when the collector saw none
  function SeenBy(pc: GcPc): Maybe {
    match pc
    case Want(Final(n)) => Just(n)
    case Scanning(Final(n)) => Just(n)
    case Leaving(Final(n)) => Just(n)
    case Close(n) => Just(n)
    case Reset(n) => Just(n)
    case Gone(n) => Just(n)
    case _ => Nothing
  }

  predicate HasSwept(pc: GcPc) {
    pc.Leaving? || pc.Close? || pc.Reset? || pc.Gone?
  }

  // A collector that saw no instances, none being created since, finds none later, and
  // leaves an empty list.
  ghost predicate FinalOk(s: State) {
    forall g :: g in s.gcs ==> QuietOk(s, s.gcs[g])
  }

  ghost predicate QuietOk(s: State, pc: GcPc) {
    && (SeenBy(pc).Just? ==> SeenBy(pc).a <= s.created)
    && (SeenBy(pc) == Just(s.created) ==>
         && s.live == map[]
         && (HasSwept(pc) ==> s.gclist == [] && !Creating(Current(s))))
  }

  // A creation under way whose pointer is not live yet
  predicate Creating(pc: UserPc) {
    Creates(pc) || pc.CtorLooked? || pc.CtorCounted? || pc.CopyCounted?
  }

  // Once a pointer exists, a collector has been begun, or its creator is about to begin one.
  ghost predicate BegunOk(s: State) {
    s.gcs == map[] ==> (s.live == map[] || Current(s).CtorBorn?) && !Current(s).Copy? && !Current(s).CopyCounted?
  }

  ghost predicate Inv(s: State) {
    MutexOk(s) && CountingOk(s) && HandleOk(s) && FinalOk(s) && BegunOk(s)
  }

  lemma InitOk()
    ensures Inv(Init())
  {
    var s := Init();
    assert forall a :: CountOk(s.gclist, s.live, Nothing, Nothing, a) by {
      forall a ensures CountOk(s.gclist, s.live, Nothing, Nothing, a) {
        assert PointersTo(s.live, a) == {};
      }
    }
  }

  // ---- every step keeps it: the mutex

  lemma MutexKept(s: State, step: Step)
    requires MutexOk(s) && Enabled(s, step)
    ensures MutexOk(Apply(s, step))
  {
    hide Counted, Uncounted, Dropped, Find, FirstGarbage, NoGarbage, CanUncount, Owned, Freed, MayStart;
    hide AdvanceUser, AdvanceCollector;
    match step
    case Acquire(i, op) => assert op != Idle by { OperationsAreBusy(s, op); }
    case Advance(i) => UserMutex(s, i);
    case Collector(g) => CollectorMutex(s, g);
    case _ =>
  }

  lemma CollectorMutex(s: State, g: Gid)
    requires MutexOk(s) && Enabled(s, Collector(g))
    ensures MutexOk(AdvanceCollector(s, g))
  {
    hide NoGarbage;
    var s' := AdvanceCollector(s, g);
    assert forall i :: PcOf(s', i) == PcOf(s, i);
  }

  lemma OperationsAreBusy(s: State, op: UserPc)
    requires MayStart(s, op)
    ensures op != Idle
  {
  }

  lemma UserMutex(s: State, i: Tid)
    requires MutexOk(s) && Enabled(s, Advance(i))
    ensures MutexOk(AdvanceUser(s, i))
  {
    hide AdvanceUser;
    UserShape(s, i);
    assert s.owner == User(i);
  }

  // What every step of a user thread leaves alone
  lemma UserShape(s: State, i: Tid)
    requires Enabled(s, Advance(i))
    ensures var s' := AdvanceUser(s, i);
      && s'.gcs == s.gcs && s'.freed == s.freed
      && (forall j :: j != i ==> PcOf(s', j) == PcOf(s, j))
      && (PcOf(s', i) == Idle <==> PcOf(s, i) == Leave)
      && s'.owner == (if PcOf(s, i) == Leave then Free else s.owner)
  {
    hide Counted, Uncounted, Find, NoGarbage, CanUncount, CanCount, Owned;
  }

  // ---- the counts

  lemma CountingKept(s: State, step: Step)
    requires MutexOk(s) && CountingOk(s) && Enabled(s, step)
    ensures CountingOk(Apply(s, step))
  {
    hide Sound, Counted, Uncounted, Dropped, Find, NoGarbage, CanUncount, Owned, Freed, AdvanceUser, AdvanceCollector;
    match step
    case Acquire(i, op) =>
    case Advance(i) => UserCounting(s, i);
    case Begin(i, g) =>
    case Collect(i, k) => SoundFreed(s.gclist, s.live, s.owned, s.freed, k);
    case Collector(g) => CollectorShape(s, g);
    case GcCollect(g, k) => SoundFreed(s.gclist, s.live, s.owned, s.freed, k);
  }

  // What a collector's own steps leave alone
  lemma CollectorShape(s: State, g: Gid)
    requires MutexOk(s) && Enabled(s, Collector(g))
    ensures var s' := AdvanceCollector(s, g);
      && s'.gclist == s.gclist && s'.instCount == s.instCount && s'.users == s.users && s'.live == s.live
      && s'.owned == s.owned && s'.freed == s.freed && s'.created == s.created
      && Current(s') == Current(s)
  {
    hide NoGarbage;
  }

  lemma UserCounting(s: State, i: Tid)
    requires MutexOk(s) && CountingOk(s) && Enabled(s, Advance(i))
    ensures CountingOk(AdvanceUser(s, i))
  {
    hide Sound, Counted, Uncounted, Find, CanUncount, NoGarbage;
    assert s.owner == User(i);
    var pc := PcOf(s, i);
    assert Current(s) == pc;
    if pc.CtorLooked? || pc.RawLooked? {
      UserReferencing(s, i);
    } else if pc.Copy? || pc.AsgUncounted? {
      UserCountingMore(s, i);
    } else if pc.Dtor? || pc.Raw? || pc.Asg? {
      UserUncounting(s, i);
    } else if pc.CtorCounted? || pc.CopyCounted? || pc.DtorUncounted? || pc.Counted2? {
      UserPointing(s, i);
    }
  }

  lemma UserReferencing(s: State, i: Tid)
    requires MutexOk(s) && CountingOk(s) && Enabled(s, Advance(i)) && s.owner == User(i)
    requires PcOf(s, i).CtorLooked? || PcOf(s, i).RawLooked?
    ensures CountingOk(AdvanceUser(s, i))
  {
    hide Sound, Counted, Find, Owned;
    var pc := PcOf(s, i);
    SoundReferenced(s.gclist, s.live, Minus(s, pc), s.owned, s.freed, pc.t);
  }

  lemma UserCountingMore(s: State, i: Tid)
    requires MutexOk(s) && CountingOk(s) && Enabled(s, Advance(i)) && s.owner == User(i)
    requires PcOf(s, i).Copy? || PcOf(s, i).AsgUncounted?
    ensures CountingOk(AdvanceUser(s, i))
  {
    hide Sound, Counted, Find, Owned;
    var pc := PcOf(s, i);
    LivePointerIsListed(s, pc.q);
    SoundReferenced(s.gclist, s.live, Minus(s, pc), s.owned, s.freed, s.live[pc.q]);
  }

  lemma UserUncounting(s: State, i: Tid)
    requires MutexOk(s) && CountingOk(s) && Enabled(s, Advance(i)) && s.owner == User(i)
    requires var pc := PcOf(s, i); pc.Dtor? || pc.Raw? || pc.Asg?
    ensures CountingOk(AdvanceUser(s, i))
  {
    hide Sound, Uncounted, Find;
    SoundUncounted(s.gclist, s.live, s.owned, s.freed, PcOf(s, i).p);
  }

  lemma UserPointing(s: State, i: Tid)
    requires MutexOk(s) && CountingOk(s) && Enabled(s, Advance(i)) && s.owner == User(i)
    requires var pc := PcOf(s, i); pc.CtorCounted? || pc.CopyCounted? || pc.DtorUncounted? || pc.Counted2?
    ensures CountingOk(AdvanceUser(s, i))
  {
    hide Sound;
    var pc := PcOf(s, i);
    if pc.DtorUncounted? {
      SoundGone(s.gclist, s.live, s.owned, s.freed, pc.p);
    } else if pc.Counted2? {
      SoundMoved(s.gclist, s.live, s.owned, s.freed, pc.p, pc.t);
    } else {
      SoundBorn(s.gclist, s.live, s.owned, s.freed, pc.p, pc.t);
    }
  }

  lemma LivePointerIsListed(s: State, p: Ptr)
    requires CountingOk(s) && p in s.live
    ensures CanCount(s.gclist, s.live[p])
    ensures s.live[p] !in s.freed && Owned(s.owned, s.live[p]) == s.owned
  {
    hide Find;
    PointerCounts(s.live, p);
    assert CountOk(s.gclist, s.live, Plus(Current(s)), Minus(s, Current(s)), s.live[p]);
    FindListed(s.gclist, s.live[p]);
  }

  // ---- the collector's handle

  lemma HandleKept(s: State, step: Step)
    requires Inv(s) && Enabled(s, step)
    ensures HandleOk(Apply(s, step))
  {
    hide Sound, Counted, Uncounted, Dropped, Find, NoGarbage, FirstGarbage, CanUncount, Owned, Freed, FinalOk;
    match step
    case Acquire(i, op) => SameActive(s, Apply(s, step));
    case Advance(i) => UserHandle(s, i);
    case Begin(i, g) => BeginHandle(s, i, g);
    case Collect(i, k) => SameActive(s, Apply(s, step));
    case Collector(g) => CollectorHandle(s, g);
    case GcCollect(g, k) => SameActive(s, Apply(s, step));
  }

  lemma SameActive(s: State, s': State)
    requires s'.gcs == s.gcs
    ensures forall g :: Active(s', g) <==> Active(s, g)
  {
  }

  lemma UserHandle(s: State, i: Tid)
    requires MutexOk(s) && HandleOk(s) && Enabled(s, Advance(i))
    ensures HandleOk(AdvanceUser(s, i))
  {
    hide Counted, Uncounted, Find, NoGarbage, CanUncount, Owned;
    assert s.owner == User(i);
    var s' := AdvanceUser(s, i);
    SameActive(s, s');
    assert Current(s) == PcOf(s, i);
    assert !Current(s').CtorBegun?;
  }

  lemma BeginHandle(s: State, i: Tid, g: Gid)
    requires MutexOk(s) && HandleOk(s) && Enabled(s, Begin(i, g))
    ensures HandleOk(Apply(s, Begin(i, g)))
  {
    assert s.owner == User(i) && Current(s) == PcOf(s, i);
    var s' := Apply(s, Begin(i, g));
    assert Current(s') == CtorBegun(PcOf(s, i).p, g);
    forall h ensures Active(s', h) <==> h == g { assert Active(s', h) ==> h == g || Active(s, h); }
  }

  // While the handle is being stored the creator's own pointer keeps instCount positive.
  lemma CollectorHandle(s: State, g: Gid)
    requires Inv(s) && Enabled(s, Collector(g))
    ensures HandleOk(AdvanceCollector(s, g))
  {
    hide Sound, NoGarbage, FinalOk;
    var s' := AdvanceCollector(s, g);
    if Current(s).CtorBegun? {
      assert Current(s).p in s.live;
      assert s.instCount > 0;
    }
    assert Active(s, g);
    assert forall h :: Active(s', h) ==> Active(s, h);
    assert Current(s').CtorBegun? <==> Current(s).CtorBegun?;
    assert forall h :: Active(s, h) ==> h == g;
  }

  // ---- the last collection

  lemma FinalKept(s: State, step: Step)
    requires Inv(s) && Enabled(s, step)
    ensures FinalOk(Apply(s, step))
  {
    hide Sound, Counted, Uncounted, Dropped, Find, CanUncount, Owned, Freed, HandleOk, AdvanceUser;
    var s' := Apply(s, step);
    forall g | g in s'.gcs ensures QuietOk(s', s'.gcs[g]) {
      match step
      case Acquire(i, op) => assert QuietOk(s, s.gcs[g]);
      case Advance(i) =>
        UserShape(s, i);
        assert QuietOk(s, s.gcs[g]);
        assert s.owner == User(i);
        UserQuiet(s, i, s.gcs[g]);
      case Begin(i, h) => if g != h { assert QuietOk(s, s.gcs[g]); }
      case Collect(i, k) =>
        assert QuietOk(s, s.gcs[g]);
        assert s.gclist != [];
      case Collector(h) =>
        assert QuietOk(s, s.gcs[g]);
        CollectorQuiet(s, h, g);
      case GcCollect(h, k) =>
        assert QuietOk(s, s.gcs[g]);
        assert s.gclist != [];
    }
  }

  lemma UserQuiet(s: State, i: Tid, pc: GcPc)
    requires MutexOk(s) && CountingOk(s) && Enabled(s, Advance(i)) && s.owner == User(i)
    requires QuietOk(s, pc)
    ensures QuietOk(AdvanceUser(s, i), pc)
  {
    hide Sound, Counted, Uncounted, Dropped, Find, FirstGarbage, CanUncount, Owned, Freed, NoGarbage;
  }

  lemma CollectorQuiet(s: State, h: Gid, g: Gid)
    requires Inv(s) && Enabled(s, Collector(h)) && g in s.gcs
    requires QuietOk(s, s.gcs[g])
    ensures QuietOk(AdvanceCollector(s, h), AdvanceCollector(s, h).gcs[g])
  {
    hide Sound, HandleOk, FinalOk;
    if s.gcs[h].Test? && s.instCount == 0 { assert s.live == map[]; }
    if s.gcs[h].Scanning? {
      assert s.owner == Gc(h);
      if s.live == map[] && s.gclist != [] {
        SoundWithoutPointers(s.gclist, s.live, s.owned, s.freed, 0);
      }
    }
  }

  lemma BegunKept(s: State, step: Step)
    requires Inv(s) && Enabled(s, step)
    ensures BegunOk(Apply(s, step))
  {
    hide Sound, Counted, Uncounted, Dropped, Find, FirstGarbage, NoGarbage, CanUncount, Owned, Freed, FinalOk;
    match step
    case Advance(i) => UserBegun(s, i);
    case Begin(i, g) => assert g in Apply(s, step).gcs;
    case Collector(g) => assert g in AdvanceCollector(s, g).gcs;
    case _ =>
  }

  lemma UserBegun(s: State, i: Tid)
    requires MutexOk(s) && HandleOk(s) && BegunOk(s) && CountingOk(s) && Enabled(s, Advance(i))
    ensures BegunOk(AdvanceUser(s, i))
  {
    hide Sound, Counted, Uncounted, Find, NoGarbage, CanUncount, Owned;
    assert s.owner == User(i) && Current(s) == PcOf(s, i);
    if PcOf(s, i).CtorBorn? { assert Active(s, s.hThrd - 1); }
  }

  // ---- runs

  lemma StepKeepsInv(s: State, step: Step)
    requires Inv(s) && Enabled(s, step)
    ensures Inv(Apply(s, step))
  {
    hide MutexOk, CountingOk, HandleOk, FinalOk, BegunOk, Enabled, Apply;
    MutexKept(s, step);
    CountingKept(s, step);
    HandleKept(s, step);
    FinalKept(s, step);
    BegunKept(s, step);
  }

  datatype Outcome = Stuck | Reached(state: State)

  // The state after some steps from the start, if each of them was enabled in its turn
  function Run(steps: seq<Step>): Outcome {
    if steps == [] then Reached(Init())
    else
      var step := steps[|steps| - 1];
      match Run(steps[..|steps| - 1])
      case Stuck => Stuck
      case Reached(s) => if Enabled(s, step) then Reached(Apply(s, step)) else Stuck
  }

  lemma {:induction false} RunKeepsInv(steps: seq<Step>, s: State)
    requires Run(steps) == Reached(s)
    ensures Inv(s)
  {
    hide Inv, Enabled, Apply, Init;
    if steps == [] {
      InitOk();
    } else {
      var before, step := Run(steps[..|steps| - 1]).state, steps[|steps| - 1];
      RunKeepsInv(steps[..|steps| - 1], before);
      StepKeepsInv(before, step);
    }
  }

  // In every interleaving, whenever the mutex is free the counts are exact: each block's
  // count is the number of pointers to it, and instCount is the number of pointers.
  lemma CountsExactWhenFree(steps: seq<Step>, s: State)
    requires Run(steps) == Reached(s) && s.owner == Free
    ensures forall a :: RefOf(s.gclist, a) == Count(s.live, a)
    ensures forall p :: p in s.live ==> Listed(s.gclist, s.live[p])
    ensures DistinctBlocks(s.gclist)
    ensures s.instCount == |s.live|
  {
    hide Run, MutexOk, HandleOk, FinalOk, BegunOk, RefOf, Count, Listed;
    RunKeepsInv(steps, s);
    forall a ensures RefOf(s.gclist, a) == Count(s.live, a) {
      assert CountOk(s.gclist, s.live, Nothing, Nothing, a);
    }
    forall p | p in s.live ensures Listed(s.gclist, s.live[p]) {
      PointerCounts(s.live, p);
      assert CountOk(s.gclist, s.live, Nothing, Nothing, s.live[p]);
    }
  }

  // The block a step frees, if it frees one
  function FreedBy(s: State, step: Step): Maybe
    requires Enabled(s, step)
  {
    match step
    case Collect(i, k) => Just(s.gclist[k].memPtr)
    case GcCollect(g, k) => Just(s.gclist[k].memPtr)
    case _ => Nothing
  }

  // In every interleaving, a block is freed only when no pointer points at it, and never a
  // second time.
  lemma FreeingIsSafe(steps: seq<Step>, s: State, step: Step)
    requires Run(steps) == Reached(s) && Enabled(s, step)
    ensures match FreedBy(s, step)
      case Nothing => Apply(s, step).freed == s.freed
      case Just(a) =>
        && (forall p :: p in s.live ==> s.live[p] != a)
        && a !in s.freed
        && Apply(s, step).freed == Freed(s.freed, a)
  {
    hide *;
    RunKeepsInv(steps, s);
    StepFreesSafely(s, step);
  }

  lemma StepFreesSafely(s: State, step: Step)
    requires Inv(s) && Enabled(s, step)
    ensures match FreedBy(s, step)
      case Nothing => Apply(s, step).freed == s.freed
      case Just(a) =>
        && (forall p :: p in s.live ==> s.live[p] != a)
        && a !in s.freed
        && Apply(s, step).freed == Freed(s.freed, a)
  {
    hide HandleOk, FinalOk, BegunOk, Sound, Counted, Uncounted, Dropped, Find, NoGarbage, CanUncount, Freed, Owned;
    if step.Collect? {
      SoundFreed(s.gclist, s.live, s.owned, s.freed, step.k);
    } else if step.GcCollect? {
      SoundFreed(s.gclist, s.live, s.owned, s.freed, step.k);
    } else if step.Advance? {
      UserShape(s, step.i);
    }
  }

  // In every interleaving at most one collector is active, and hThrd names it, so is not
  // zero, as soon as its creator has stored the handle.
  lemma OneCollector(steps: seq<Step>, s: State, g: Gid, h: Gid)
    requires Run(steps) == Reached(s) && Active(s, g) && Active(s, h)
    ensures g == h
    ensures !Current(s).CtorBegun? ==> s.hThrd == g + 1
    ensures Current(s).CtorBegun? ==> s.instCount > 0 && (s.gcs[g] == Test || s.gcs[g] == Want(Looping))
  {
    hide Run, MutexOk, FinalOk, BegunOk, Sound;
    RunKeepsInv(steps, s);
    assert s.live != map[] || !Current(s).CtorBegun?;
  }

  // When a collector returns and no pointer was created since it saw instCount at zero, the
  // list is empty.
  lemma QuietReturnLeavesNothing(steps: seq<Step>, s: State, g: Gid)
    requires Run(steps) == Reached(s)
    requires g in s.gcs && s.gcs[g] == Reset(s.created)
    ensures Enabled(s, Collector(g))
    ensures var s' := Apply(s, Collector(g)); s'.gclist == [] && s'.live == map[] && s'.hThrd == 0
  {
    hide Run, MutexOk, CountingOk, HandleOk, BegunOk;
    RunKeepsInv(steps, s);
    assert QuietOk(s, s.gcs[g]);
  }

  // No thread is ever stuck inside an operation: the entries it goes to are there.
  lemma NeverStuck(steps: seq<Step>, s: State, i: Tid)
    requires Run(steps) == Reached(s) && PcOf(s, i) != Idle
    ensures
      || Enabled(s, Advance(i))
      || (PcOf(s, i).CtorBorn? && forall g :: g !in s.gcs ==> Enabled(s, Begin(i, g)))
      || exists j :: Enabled(s, Collect(i, j))
  {
    hide Run, HandleOk, FinalOk, BegunOk, Sound, Find;
    RunKeepsInv(steps, s);
    var pc := PcOf(s, i);
    assert s.owner == User(i) && Current(s) == pc;
    if pc.Dtor? || pc.Raw? || pc.Asg? {
      SoundUncounted(s.gclist, s.live, s.owned, s.freed, pc.p);
    } else if pc.Copy? || pc.AsgUncounted? {
      LivePointerIsListed(s, pc.q);
    } else if pc == Scan && !NoGarbage(s.gclist) {
      var j := FirstGarbageIn(s.gclist);
      assert Enabled(s, Collect(i, j));
    }
  }

  // Nor is a collector, but for waiting for the mutex.
  lemma CollectorNeverStuck(steps: seq<Step>, s: State, g: Gid)
    requires Run(steps) == Reached(s) && Active(s, g)
    ensures
      || Enabled(s, Collector(g))
      || (s.gcs[g].Want? && s.owner != Free)
      || exists j :: Enabled(s, GcCollect(g, j))
  {
    hide Run;
    if s.gcs[g].Scanning? && !NoGarbage(s.gclist) {
      var j := FirstGarbageIn(s.gclist);
      assert Enabled(s, GcCollect(g, j));
    }
  }

  lemma FirstGarbageIn(l: seq<Info>) returns (k: nat)
    requires !NoGarbage(l)
    ensures FirstGarbage(l, k)
  {
    k := 0;
    while k < |l| && l[k].refcount > 0
      invariant k <= |l| && forall j :: 0 <= j < k ==> l[j].refcount > 0
    {
      k := k + 1;
    }
  }

  // Pointers may exist with no collector, but only when one was created after a collector
  // had seen instCount at zero.
  lemma UncollectedOnlyAfterLateCreation(steps: seq<Step>, s: State)
    requires Run(steps) == Reached(s) && s.owner == Free
    requires s.live != map[] && forall g :: !Active(s, g)
    ensures exists g :: g in s.gcs && s.gcs[g].Gone? && s.gcs[g].seen < s.created
  {
    hide Run, MutexOk, CountingOk, HandleOk;
    RunKeepsInv(steps, s);
    assert s.gcs != map[];
    var g :| g in s.gcs;
    assert !Active(s, g);
    assert QuietOk(s, s.gcs[g]);
  }

  // ---- when pointers lose their collector

  lemma OneStep(steps: seq<Step>, s: State, step: Step) returns (steps': seq<Step>)
    requires Run(steps) == Reached(s) && Enabled(s, step)
    ensures steps' == steps + [step] && Run(steps') == Reached(Apply(s, step))
  {
    hide Enabled, Apply;
    steps' := steps + [step];
    assert steps'[..|steps|] == steps;
  }

  // Steps of collector threads only
  predicate ByCollectors(more: seq<Step>) {
    forall k :: 0 <= k < |more| ==> more[k].Collector? || more[k].GcCollect?
  }

  // The collectors' own steps can lead to no collector at all.
  ghost predicate CanBeLeftAlone(steps: seq<Step>) {
    exists more, s :: ByCollectors(more) && Run(steps + more) == Reached(s) && forall g :: !Active(s, g)
  }

  // With pointers alive and the mutex free, the collectors' own steps lead to no collector
  // exactly when there is none now, or the one the handle names has seen instCount at zero.
  lemma LeftAloneExactly(steps: seq<Step>, s: State)
    requires Run(steps) == Reached(s) && s.owner == Free && s.live != map[]
    ensures s.hThrd != 0 ==> s.hThrd - 1 in s.gcs
    ensures CanBeLeftAlone(steps) <==> s.hThrd == 0 || SeenBy(s.gcs[s.hThrd - 1]).Just?
  {
    hide Run, MutexOk, CountingOk, FinalOk, BegunOk;
    RunKeepsInv(steps, s);
    if s.hThrd == 0 {
      assert steps + [] == steps && ByCollectors([]);
    } else if SeenBy(s.gcs[s.hThrd - 1]).Just? {
      var more, s' := LastSteps(steps, s, s.hThrd - 1);
      assert forall g :: !Active(s', g);
    } else {
      forall more, s' | ByCollectors(more) && Run(steps + more) == Reached(s') ensures exists g :: Active(s', g) {
        KeepsCollecting(steps, s, more, s');
        assert Active(s', s'.hThrd - 1);
      }
    }
  }

  // A collector that has not seen instCount at zero, with pointers alive
  predicate Collecting(s: State) {
    && !s.owner.User? && s.live != map[]
    && s.hThrd != 0 && s.hThrd - 1 in s.gcs && SeenBy(s.gcs[s.hThrd - 1]) == Nothing
  }

  lemma CollectingStep(s: State, step: Step)
    requires Inv(s) && Collecting(s) && Enabled(s, step) && (step.Collector? || step.GcCollect?)
    ensures Collecting(Apply(s, step))
  {
    hide MutexOk, FinalOk, BegunOk, Sound, NoGarbage, FirstGarbage, Dropped, Freed;
    assert |s.live| > 0;
    if step.Collector? { assert Active(s, step.g); }
  }

  lemma {:induction false} KeepsCollecting(steps: seq<Step>, s: State, more: seq<Step>, s': State)
    requires Run(steps) == Reached(s) && Collecting(s)
    requires ByCollectors(more) && Run(steps + more) == Reached(s')
    ensures Collecting(s')
  {
    hide Collecting, Inv, Enabled, Apply, Init;
    if more == [] {
      assert steps + more == steps;
    } else {
      var n := |more| - 1;
      assert (steps + more)[..|steps + more| - 1] == steps + more[..n];
      assert (steps + more)[|steps + more| - 1] == more[n];
      var before := Run(steps + more[..n]).state;
      KeepsCollecting(steps, s, more[..n], before);
      RunKeepsInv(steps + more[..n], before);
      CollectingStep(before, more[n]);
    }
  }

  // The steps a collector still has to go, once it has seen instCount at zero
  lemma LastSteps(steps: seq<Step>, s: State, g: Gid) returns (more: seq<Step>, s': State)
    requires Run(steps) == Reached(s) && Inv(s) && s.owner == Free
    requires Active(s, g) && SeenBy(s.gcs[g]).Just?
    ensures ByCollectors(more) && Run(steps + more) == Reached(s')
    ensures forall h :: !Active(s', h)
  {
    hide Run, CountingOk, FinalOk, BegunOk, NoGarbage, Dropped;
    assert forall h :: Active(s, h) ==> h == g;
    if s.gcs[g].Want? {
      var sweep, s1, n := LastSweep(steps, s, g);
      assert forall h :: Active(s1, h) ==> h == g || Active(s, h);
      var rest;
      rest, s' := ClosingSteps(steps + sweep, s1, g);
      more := sweep + rest;
      assert steps + sweep + rest == steps + more;
    } else {
      more, s' := ClosingSteps(steps, s, g);
    }
  }

  lemma ClosingSteps(steps: seq<Step>, s: State, g: Gid) returns (more: seq<Step>, s': State)
    requires Run(steps) == Reached(s) && g in s.gcs && (s.gcs[g].Close? || s.gcs[g].Reset?)
    requires forall h :: Active(s, h) ==> h == g
    ensures ByCollectors(more) && Run(steps + more) == Reached(s')
    ensures forall h :: !Active(s', h)
    decreases s.gcs[g].Close?
  {
    hide Run;
    var step := Collector(g);
    var all := OneStep(steps, s, step);
    var s1 := Apply(s, step);
    assert forall h :: h != g ==> (Active(s1, h) <==> Active(s, h));
    if s.gcs[g].Close? {
      var rest;
      rest, s' := ClosingSteps(all, s1, g);
      more := [step] + rest;
      assert all + rest == steps + more;
    } else {
      more, s' := [step], s1;
    }
  }

  lemma LastSweep(steps: seq<Step>, s: State, g: Gid) returns (more: seq<Step>, s': State, n: nat)
    requires Run(steps) == Reached(s) && Inv(s) && s.owner == Free
    requires g in s.gcs && s.gcs[g].Want? && SeenBy(s.gcs[g]).Just?
    ensures ByCollectors(more) && Run(steps + more) == Reached(s')
    ensures s'.gcs == s.gcs[g := Close(n)]
  {
    hide Run, Inv;
    var step := Collector(g);
    n := s.gcs[g].last.seen;
    var all := OneStep(steps, s, step);
    StepKeepsInv(s, step);
    var s1 := Apply(s, step);
    var sweep, s2 := Sweep(all, s1, g);
    var all2 := OneStep(all + sweep, s2, step);
    var s3 := Apply(s2, step);
    var all3 := OneStep(all2, s3, step);
    more, s' := [step] + sweep + [step] + [step], Apply(s3, step);
    assert steps + more == all3;
  }

  // A collector's scan, to its end
  lemma {:induction false} Sweep(steps: seq<Step>, s: State, g: Gid) returns (more: seq<Step>, s': State)
    requires Run(steps) == Reached(s) && Inv(s) && g in s.gcs && s.gcs[g].Scanning?
    ensures ByCollectors(more) && Run(steps + more) == Reached(s')
    ensures s'.gcs == s.gcs && NoGarbage(s'.gclist)
    decreases |s.gclist|
  {
    hide Run, Inv, Dropped;
    if NoGarbage(s.gclist) {
      more, s' := [], s;
      assert steps + [] == steps;
    } else {
      var k := FirstGarbageIn(s.gclist);
      var step := GcCollect(g, k);
      var all := OneStep(steps, s, step);
      StepKeepsInv(s, step);
      Shorter(s, k);
      var rest;
      rest, s' := Sweep(all, Apply(s, step), g);
      more := [step] + rest;
      assert steps + more == all + rest;
    }
  }

  lemma Shorter(s: State, k: nat)
    requires Inv(s) && FirstGarbage(s.gclist, k)
    ensures |Dropped(s.gclist, s.gclist[k].memPtr)| < |s.gclist|
  {
    hide MutexOk, HandleOk, FinalOk, BegunOk, Dropped, CountsOk, BlocksOk;
    DroppedDistinct(s.gclist, s.gclist[k].memPtr);
  }

  // ---- and this does happen: a pointer created between a collector's last look at
  // instCount and its clearing of the handle is left without one

  // Thread 0 creates a pointer to the null block, up to the test of the handle.
  lemma RunCounting(steps: seq<Step>, s: State, p: Ptr) returns (steps': seq<Step>)
    requires Run(steps) == Reached(s)
    requires s.owner == Free && PcOf(s, 0) == Idle && s.gclist == [] && p !in s.live && s.freed == multiset{}
    ensures Run(steps') == Reached(s.(owner := User(0), gclist := [Info(1, 0)], live := s.live[p := 0],
                                      instCount := s.instCount + 1, created := s.created + 2,
                                      users := s.users[0 := CtorBorn(p)]))
  {
    hide Run;
    steps' := OneStep(steps, s, Acquire(0, Ctor(p, 0)));
    var s1 := Apply(s, Acquire(0, Ctor(p, 0)));
    steps' := OneStep(steps', s1, Advance(0));
    var s2 := s1.(users := s.users[0 := CtorLooked(p, 0, false)]);
    assert Apply(s1, Advance(0)) == s2;
    steps' := RunPushing(steps', s2, p);
  }

  lemma RunPushing(steps: seq<Step>, s: State, p: Ptr) returns (steps': seq<Step>)
    requires Run(steps) == Reached(s)
    requires 0 in s.users && s.users[0] == CtorLooked(p, 0, false) && s.gclist == []
    ensures Run(steps') == Reached(s.(gclist := [Info(1, 0)], live := s.live[p := 0],
                                      instCount := s.instCount + 1, created := s.created + 1,
                                      users := s.users[0 := CtorBorn(p)]))
  {
    hide Run;
    steps' := OneStep(steps, s, Advance(0));
    var s1 := s.(gclist := [Info(1, 0)], users := s.users[0 := CtorCounted(p, 0)]);
    assert Apply(s, Advance(0)) == s1;
    steps' := OneStep(steps', s1, Advance(0));
    assert s1.users[0 := CtorBorn(p)] == s.users[0 := CtorBorn(p)];
  }

  // It does so while collector 0 is about to clear the handle.
  lemma RunCreation(steps: seq<Step>, s: State) returns (steps': seq<Step>)
    requires Run(steps) == Reached(s)
    requires s == State([], 0, 1, Free, map[0 := Idle], map[0 := Reset(2)], map[], {}, multiset{}, 2)
    ensures Run(steps') == Reached(s.(gclist := [Info(1, 0)], live := map[2 := 0], instCount := 1, created := 4))
  {
    hide Run;
    steps' := RunCounting(steps, s, 2);
    var s' := s.(owner := User(0), gclist := [Info(1, 0)], live := s.live[2 := 0],
                 instCount := 1, created := 4, users := s.users[0 := CtorBorn(2)]);
    steps' := RunLeaving(steps', s');
    assert s'.users[0 := Idle] == s.users && s.live[2 := 0] == map[2 := 0];
  }

  lemma RunLeaving(steps: seq<Step>, s: State) returns (steps': seq<Step>)
    requires Run(steps) == Reached(s)
    requires PcOf(s, 0) == CtorBorn(2) && s.hThrd != 0
    ensures Run(steps') == Reached(s.(owner := Free, users := s.users[0 := Idle]))
  {
    hide Run;
    steps' := OneStep(steps, s, Advance(0));
    var s' := s.(users := s.users[0 := Leave]);
    assert Apply(s, Advance(0)) == s';
    steps' := OneStep(steps', s', Advance(0));
    assert Apply(s', Advance(0)) == s'.(owner := Free, users := s'.users[0 := Idle]);
    assert s'.users[0 := Idle] == s.users[0 := Idle];
  }

  // The first pointer begins collector 0.
  lemma RunFirstPointer() returns (steps: seq<Step>, s: State)
    ensures s == State([Info(1, 0)], 1, 0, User(0), map[0 := CtorBorn(1)], map[], map[1 := 0], {}, multiset{}, 2)
    ensures Run(steps) == Reached(s)
  {
    assert Run([]) == Reached(Init());
    hide Run;
    steps := RunCounting([], Init(), 1);
    s := State([Info(1, 0)], 1, 0, User(0), map[0 := CtorBorn(1)], map[], map[1 := 0], {}, multiset{}, 2);
  }

  lemma RunBeginning(steps: seq<Step>, s: State)
    returns (steps': seq<Step>)
    requires Run(steps) == Reached(s)
    requires s == State([Info(1, 0)], 1, 0, User(0), map[0 := CtorBorn(1)], map[], map[1 := 0], {}, multiset{}, 2)
    ensures Run(steps') == Reached(s.(owner := Free, hThrd := 1, users := map[0 := Idle], gcs := map[0 := Test]))
  {
    hide Run;
    steps' := OneStep(steps, s, Begin(0, 0));
    var s1 := s.(gcs := map[0 := Test], users := map[0 := CtorBegun(1, 0)]);
    assert Apply(s, Begin(0, 0)) == s1;
    steps' := OneStep(steps', s1, Advance(0));
    var s2 := s1.(hThrd := 1, users := map[0 := Leave]);
    assert Apply(s1, Advance(0)) == s2;
    steps' := OneStep(steps', s2, Advance(0));
    assert Apply(s2, Advance(0)) == s2.(owner := Free, users := map[0 := Idle]);
  }

  lemma RunDestruction(steps: seq<Step>, s: State)
    returns (steps': seq<Step>)
    requires Run(steps) == Reached(s)
    requires s == State([Info(1, 0)], 1, 1, Free, map[0 := Idle], map[0 := Test], map[1 := 0], {}, multiset{}, 2)
    ensures Run(steps') == Reached(s.(gclist := [Info(0, 0)], live := map[], instCount := 0))
  {
    hide Run;
    steps' := OneStep(steps, s, Acquire(0, Dtor(1)));
    var s1 := s.(owner := User(0), users := map[0 := Dtor(1)]);
    assert Apply(s, Acquire(0, Dtor(1))) == s1;
    steps' := OneStep(steps', s1, Advance(0));
    var s2 := s1.(gclist := [Info(0, 0)], users := map[0 := DtorUncounted(1)]);
    assert Apply(s1, Advance(0)) == s2;
    steps' := OneStep(steps', s2, Advance(0));
    var s3 := s2.(live := map[], instCount := 0, users := map[0 := Leave]);
    assert Apply(s2, Advance(0)) == s3;
    steps' := OneStep(steps', s3, Advance(0));
    assert Apply(s3, Advance(0)) == s3.(owner := Free, users := map[0 := Idle]);
  }

  // Collector 0 sees no instances, collects for the last time, and closes its handle.
  lemma RunLastCollection(steps: seq<Step>, s: State)
    returns (steps': seq<Step>)
    requires Run(steps) == Reached(s)
    requires s == State([Info(0, 0)], 0, 1, Free, map[0 := Idle], map[0 := Test], map[], {}, multiset{}, 2)
    ensures Run(steps') == Reached(s.(gclist := [], gcs := map[0 := Reset(2)]))
  {
    hide Run;
    steps' := OneStep(steps, s, Collector(0));
    var s1 := s.(gcs := map[0 := Want(Final(2))]);
    assert Apply(s, Collector(0)) == s1;
    steps' := OneStep(steps', s1, Collector(0));
    var s2 := s1.(gcs := map[0 := Scanning(Final(2))], owner := Gc(0));
    assert Apply(s1, Collector(0)) == s2;
    steps' := OneStep(steps', s2, GcCollect(0, 0));
    var s3 := s2.(gclist := []);
    assert Apply(s2, GcCollect(0, 0)) == s3;
    steps' := OneStep(steps', s3, Collector(0));
    var s4 := s3.(gcs := map[0 := Leaving(Final(2))]);
    assert Apply(s3, Collector(0)) == s4;
    steps' := OneStep(steps', s4, Collector(0));
    var s5 := s4.(gcs := map[0 := Close(2)], owner := Free);
    assert Apply(s4, Collector(0)) == s5;
    steps' := OneStep(steps', s5, Collector(0));
    assert Apply(s5, Collector(0)) == s5.(gcs := map[0 := Reset(2)]);
  }

  lemma PointerWithoutCollector() returns (steps: seq<Step>, s: State)
    ensures Run(steps) == Reached(s)
    ensures s.owner == Free && s.live != map[] && s.hThrd == 0 && forall g :: !Active(s, g)
  {
    hide Run;
    steps, s := RunFirstPointer();
    steps := RunBeginning(steps, s);
    s := s.(owner := Free, hThrd := 1, users := map[0 := Idle], gcs := map[0 := Test]);
    steps := RunDestruction(steps, s);
    s := s.(gclist := [Info(0, 0)], live := map[], instCount := 0);
    steps := RunLastCollection(steps, s);
    s := s.(gclist := [], gcs := map[0 := Reset(2)]);
    steps := RunCreation(steps, s);
    s := s.(gclist := [Info(1, 0)], live := map[2 := 0], instCount := 1, created := 4);
    steps := OneStep(steps, s, Collector(0));
    assert 2 in s.live;
    s := Apply(s, Collector(0));
    assert s.gcs == map[0 := Gone(2)];
  }
}
