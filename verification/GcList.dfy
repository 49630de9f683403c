// The list of counted blocks that both collectors keep, and what its counts mean.

module GcList {
  // A block of memory; 0 is the null pointer.
  type Addr = nat

  datatype Info = Info(refcount: nat, memPtr: Addr)

  ghost predicate DistinctBlocks(l: seq<Info>) {
    forall i, j :: 0 <= i < j < |l| ==> l[i].memPtr != l[j].memPtr
  }

  // findPtrInfo: the first entry of the block, or the end of the list
  function Find(l: seq<Info>, a: Addr): (i: nat)
    ensures i <= |l|
    ensures i < |l| ==> l[i].memPtr == a
    ensures forall k :: 0 <= k < i ==> l[k].memPtr != a
  {
    if l == [] then 0 else if l[0].memPtr == a then 0 else 1 + Find(l[1..], a)
  }

  ghost predicate Listed(l: seq<Info>, a: Addr) {
    exists i :: 0 <= i < |l| && l[i].memPtr == a
  }

  lemma FindListed(l: seq<Info>, a: Addr)
    ensures Find(l, a) < |l| <==> Listed(l, a)
  {
  }

  // p->refcount++ on the block's entry
  function Counted(l: seq<Info>, a: Addr): (r: seq<Info>)
    requires Find(l, a) < |l|
    ensures |r| == |l|
  {
    var i := Find(l, a);
    l[i := l[i].(refcount := l[i].refcount + 1)]
  }

  // p->refcount--
  function Uncounted(l: seq<Info>, a: Addr): (r: seq<Info>)
    requires Find(l, a) < |l| && l[Find(l, a)].refcount > 0
    ensures |r| == |l|
  {
    var i := Find(l, a);
    l[i := l[i].(refcount := l[i].refcount - 1)]
  }

  // One more reference to the block, which gets an entry at the front if it has none
  function Referenced(l: seq<Info>, a: Addr): (r: seq<Info>) {
    if Find(l, a) < |l| then Counted(l, a) else [Info(1, a)] + l
  }

  // gclist.remove: drops every entry of the block
  function Dropped(l: seq<Info>, a: Addr): (r: seq<Info>) {
    if l == [] then [] else (if l[0].memPtr == a then [] else [l[0]]) + Dropped(l[1..], a)
  }

  // The block's count, 0 when it is not listed
  function RefOf(l: seq<Info>, a: Addr): nat {
    if Find(l, a) < |l| then l[Find(l, a)].refcount else 0
  }

  lemma AfterCounted(l: seq<Info>, t: Addr, a: Addr)
    requires Find(l, t) < |l|
    ensures RefOf(Counted(l, t), a) == RefOf(l, a) + if a == t then 1 else 0
    ensures Listed(Counted(l, t), a) == Listed(l, a)
  {
    FindListed(l, a);
    FindListed(Counted(l, t), a);
    SameBlocks(l, Counted(l, t), a);
  }

  lemma AfterUncounted(l: seq<Info>, t: Addr, a: Addr)
    requires Find(l, t) < |l| && l[Find(l, t)].refcount > 0
    ensures RefOf(Uncounted(l, t), a) == RefOf(l, a) - if a == t then 1 else 0
    ensures Listed(Uncounted(l, t), a) == Listed(l, a)
  {
    FindListed(l, a);
    FindListed(Uncounted(l, t), a);
    SameBlocks(l, Uncounted(l, t), a);
  }

  lemma {:induction false} SameBlocks(l: seq<Info>, r: seq<Info>, a: Addr)
    requires |l| == |r| && forall i :: 0 <= i < |l| ==> l[i].memPtr == r[i].memPtr
    ensures Find(r, a) == Find(l, a)
  {
    if l != [] { SameBlocks(l[1..], r[1..], a); }
  }

  lemma AfterReferenced(l: seq<Info>, t: Addr, a: Addr)
    ensures RefOf(Referenced(l, t), a) == RefOf(l, a) + if a == t then 1 else 0
    ensures Listed(Referenced(l, t), a) == (Listed(l, a) || a == t)
  {
    FindListed(l, a);
    FindListed(Referenced(l, t), a);
    if Find(l, t) < |l| {
      AfterCounted(l, t, a);
      FindListed(l, t);
    } else {
      assert ([Info(1, t)] + l)[1..] == l;
    }
  }

  lemma AfterDropped(l: seq<Info>, t: Addr, a: Addr)
    ensures RefOf(Dropped(l, t), a) == if a == t then 0 else RefOf(l, a)
    ensures Listed(Dropped(l, t), a) == (Listed(l, a) && a != t)
  {
    FindDropped(l, t, a);
    FindListed(l, a);
    FindListed(Dropped(l, t), a);
  }

  lemma {:induction false} FindDropped(l: seq<Info>, t: Addr, a: Addr)
    ensures RefOf(Dropped(l, t), a) == if a == t then 0 else RefOf(l, a)
    ensures (Find(Dropped(l, t), a) < |Dropped(l, t)|) == (a != t && Find(l, a) < |l|)
  {
    if l != [] {
      FindDropped(l[1..], t, a);
      DroppedHead(l, t);
      hide Dropped;
      FindAfter(l[0], l[1..], a);
      assert l == [l[0]] + l[1..];
      FindAfter(l[0], Dropped(l[1..], t), a);
    }
  }

  lemma DroppedHead(l: seq<Info>, t: Addr)
    requires l != []
    ensures Dropped(l, t) == if l[0].memPtr == t then Dropped(l[1..], t) else [l[0]] + Dropped(l[1..], t)
  {
  }

  lemma FindAfter(e: Info, l: seq<Info>, a: Addr)
    ensures Find([e] + l, a) == if e.memPtr == a then 0 else 1 + Find(l, a)
    ensures RefOf([e] + l, a) == if e.memPtr == a then e.refcount else RefOf(l, a)
  {
    assert ([e] + l)[1..] == l;
  }

  // What is left are entries of the list, still distinct.
  lemma {:induction false} DroppedDistinct(l: seq<Info>, t: Addr)
    requires DistinctBlocks(l)
    ensures DistinctBlocks(Dropped(l, t))
    ensures forall e :: e in Dropped(l, t) ==> e in l
    ensures |Dropped(l, t)| <= |l| && (Listed(l, t) ==> |Dropped(l, t)| < |l|)
  {
    if l != [] {
      DroppedDistinct(l[1..], t);
      var r := Dropped(l[1..], t);
      if Listed(l, t) && l[0].memPtr != t {
        var i :| 0 <= i < |l| && l[i].memPtr == t;
        assert l[1..][i - 1].memPtr == t;
      }
      forall k | 0 <= k < |r| ensures r[k].memPtr != l[0].memPtr { assert r[k] in l[1..]; }
    }
  }

  // ---- pointers and counts

  // The pointers to the block
  ghost function PointersTo<P>(live: map<P, Addr>, a: Addr): set<P> {
    set p | p in live && live[p] == a
  }

  ghost function Count<P>(live: map<P, Addr>, a: Addr): nat {
    |PointersTo(live, a)|
  }

  lemma CountNew<P>(live: map<P, Addr>, p: P, t: Addr, a: Addr)
    requires p !in live
    ensures Count(live[p := t], a) == Count(live, a) + if a == t then 1 else 0
  {
    PointersNew(live, p, t, a);
    assert p !in PointersTo(live, a);
    hide PointersTo;
  }

  lemma PointersNew<P>(live: map<P, Addr>, p: P, t: Addr, a: Addr)
    requires p !in live
    ensures PointersTo(live[p := t], a) == PointersTo(live, a) + if a == t then {p} else {}
  {
    var more := live[p := t];
    forall q ensures q in PointersTo(more, a) <==> q in PointersTo(live, a) || (a == t && q == p) {
      if q != p { assert q in more <==> q in live; }
    }
  }

  lemma CountGone<P>(live: map<P, Addr>, p: P, a: Addr)
    requires p in live
    ensures Count(live - {p}, a) == Count(live, a) - if a == live[p] then 1 else 0
    ensures Count(live, live[p]) > 0
  {
    assert p in PointersTo(live, live[p]);
    if a == live[p] {
      assert PointersTo(live - {p}, a) == PointersTo(live, a) - {p};
    } else {
      assert PointersTo(live - {p}, a) == PointersTo(live, a);
    }
  }

  lemma CountMoved<P>(live: map<P, Addr>, p: P, t: Addr, a: Addr)
    requires p in live
    ensures var less := if a == live[p] then 1 else 0;
      Count(live[p := t], a) == Count(live, a) - less + if a == t then 1 else 0
  {
    CountGone(live, p, a);
    CountNew(live - {p}, p, t, a);
    assert (live - {p})[p := t] == live[p := t];
  }

  lemma PointerCounts<P>(live: map<P, Addr>, p: P)
    requires p in live
    ensures Count(live, live[p]) > 0
  {
    assert p in PointersTo(live, live[p]);
  }

  // ---- what both collectors keep

  datatype Maybe = Nothing | Just(a: Addr)

  // Every count is the number of pointers to the block, but for one reference already
  // counted (plus) and one no longer counted (minus) while an operation is under way.
  ghost predicate CountsOk<P>(l: seq<Info>, live: map<P, Addr>, plus: Maybe, minus: Maybe) {
    forall a :: CountOk(l, live, plus, minus, a)
  }

  ghost predicate CountOk<P>(l: seq<Info>, live: map<P, Addr>, plus: Maybe, minus: Maybe, a: Addr) {
    && RefOf(l, a) == Count(live, a) + (if plus == Just(a) then 1 else 0) - (if minus == Just(a) then 1 else 0)
    && (Count(live, a) > 0 || plus == Just(a) ==> Listed(l, a))
  }

  // Every block handed in is listed or has been freed, never both, and was freed at most
  // once.
  ghost predicate BlocksOk(l: seq<Info>, owned: set<Addr>, freed: multiset<Addr>) {
    && (forall a :: a in freed ==> a in owned && freed[a] == 1 && !Listed(l, a))
    && (forall a :: a in owned ==> a != 0 && (a in freed || Listed(l, a)))
    && (forall a :: Listed(l, a) && a != 0 ==> a in owned)
  }

  ghost predicate Sound<P>(l: seq<Info>, live: map<P, Addr>, plus: Maybe, minus: Maybe,
                           owned: set<Addr>, freed: multiset<Addr>) {
    DistinctBlocks(l) && CountsOk(l, live, plus, minus) && BlocksOk(l, owned, freed)
  }

  // The non-null blocks among these
  function Owned(owned: set<Addr>, t: Addr): set<Addr> {
    if t == 0 then owned else owned + {t}
  }

  function Freed(freed: multiset<Addr>, t: Addr): multiset<Addr> {
    if t == 0 then freed else freed + multiset{t}
  }

  // One more reference is counted ahead of its pointer, to a block that has not been freed.
  lemma SoundReferenced<P>(l: seq<Info>, live: map<P, Addr>, minus: Maybe,
                             owned: set<Addr>, freed: multiset<Addr>, t: Addr)
    requires Sound(l, live, Nothing, minus, owned, freed) && t !in freed
    ensures Sound(Referenced(l, t), live, Just(t), minus, Owned(owned, t), freed)
  {
    hide Count, RefOf, Listed;
    ReferencedDistinct(l, t);
    hide Referenced, DistinctBlocks;
    forall a ensures CountOk(Referenced(l, t), live, Just(t), minus, a) {
      AfterReferenced(l, t, a);
      assert CountOk(l, live, Nothing, minus, a);
    }
    forall a ensures Listed(Referenced(l, t), a) == (Listed(l, a) || a == t) { AfterReferenced(l, t, a); }
  }

  lemma ReferencedDistinct(l: seq<Info>, t: Addr)
    requires DistinctBlocks(l)
    ensures DistinctBlocks(Referenced(l, t))
  {
  }

  // A pointer stops being counted before it changes or goes away.
  lemma SoundUncounted<P>(l: seq<Info>, live: map<P, Addr>, owned: set<Addr>, freed: multiset<Addr>, p: P)
    requires Sound(l, live, Nothing, Nothing, owned, freed) && p in live
    ensures Find(l, live[p]) < |l| && l[Find(l, live[p])].refcount > 0
    ensures Sound(Uncounted(l, live[p]), live, Nothing, Just(live[p]), owned, freed)
  {
    var t := live[p];
    hide Count, Listed;
    PointerCounts(live, p);
    assert CountOk(l, live, Nothing, Nothing, t);
    FindListed(l, t);
    UncountedDistinct(l, t);
    hide Uncounted, DistinctBlocks, RefOf;
    forall a ensures CountOk(Uncounted(l, t), live, Nothing, Just(t), a) {
      AfterUncounted(l, t, a);
      assert CountOk(l, live, Nothing, Nothing, a);
    }
    forall a ensures Listed(Uncounted(l, t), a) == Listed(l, a) { AfterUncounted(l, t, a); }
  }

  lemma UncountedDistinct(l: seq<Info>, t: Addr)
    requires DistinctBlocks(l) && Find(l, t) < |l| && l[Find(l, t)].refcount > 0
    ensures DistinctBlocks(Uncounted(l, t))
  {
  }

  // The pointer that was counted ahead comes to life.
  lemma SoundBorn<P>(l: seq<Info>, live: map<P, Addr>, owned: set<Addr>, freed: multiset<Addr>, p: P, t: Addr)
    requires Sound(l, live, Just(t), Nothing, owned, freed) && p !in live
    ensures Sound(l, live[p := t], Nothing, Nothing, owned, freed)
  {
    hide Count, RefOf, Listed, DistinctBlocks, BlocksOk;
    var live' := live[p := t];
    forall a ensures CountOk(l, live', Nothing, Nothing, a) {
      CountNew(live, p, t, a);
      assert CountOk(l, live, Just(t), Nothing, a);
    }
  }

  // The pointer that is no longer counted goes away.
  lemma SoundGone<P>(l: seq<Info>, live: map<P, Addr>, owned: set<Addr>, freed: multiset<Addr>, p: P)
    requires p in live && Sound(l, live, Nothing, Just(live[p]), owned, freed)
    ensures Sound(l, live - {p}, Nothing, Nothing, owned, freed)
  {
    hide Count, RefOf, Listed, DistinctBlocks, BlocksOk;
    forall a ensures CountOk(l, live - {p}, Nothing, Nothing, a) {
      CountGone(live, p, a);
      assert CountOk(l, live, Nothing, Just(live[p]), a);
    }
  }

  // The pointer moves from the block no longer counted to the one counted ahead.
  lemma SoundMoved<P>(l: seq<Info>, live: map<P, Addr>, owned: set<Addr>, freed: multiset<Addr>, p: P, t: Addr)
    requires p in live && Sound(l, live, Just(t), Just(live[p]), owned, freed)
    ensures Sound(l, live[p := t], Nothing, Nothing, owned, freed)
  {
    hide Count, RefOf, Listed, DistinctBlocks, BlocksOk;
    var live' := live[p := t];
    forall a ensures CountOk(l, live', Nothing, Nothing, a) {
      CountMoved(live, p, t, a);
      assert CountOk(l, live, Just(t), Just(live[p]), a);
    }
  }

  // A listed block with no references has no pointer left, was not freed before, and can be
  // dropped and freed.
  lemma SoundFreed<P>(l: seq<Info>, live: map<P, Addr>, owned: set<Addr>, freed: multiset<Addr>, i: nat)
    requires Sound(l, live, Nothing, Nothing, owned, freed)
    requires i < |l| && l[i].refcount == 0
    ensures var t := l[i].memPtr;
      && (forall p :: p in live ==> live[p] != t)
      && t !in freed
      && Sound(Dropped(l, t), live, Nothing, Nothing, owned, Freed(freed, t))
      && |Dropped(l, t)| < |l|
  {
    var t := l[i].memPtr;
    assert Listed(l, t);
    EntryOfBlock(l, i);
    assert CountOk(l, live, Nothing, Nothing, t);
    DroppedDistinct(l, t);
    hide Count, RefOf, Listed, DistinctBlocks, Dropped;
    forall p | p in live ensures live[p] != t { PointerCounts(live, p); }
    forall a ensures CountOk(Dropped(l, t), live, Nothing, Nothing, a) {
      AfterDropped(l, t, a);
      assert CountOk(l, live, Nothing, Nothing, a);
    }
    forall a ensures Listed(Dropped(l, t), a) == (Listed(l, a) && a != t) { AfterDropped(l, t, a); }
  }

  lemma EntryOfBlock(l: seq<Info>, i: nat)
    requires DistinctBlocks(l) && i < |l|
    ensures Find(l, l[i].memPtr) == i && RefOf(l, l[i].memPtr) == l[i].refcount
  {
    FindListed(l, l[i].memPtr);
  }

  // Without pointers every count is zero.
  lemma SoundWithoutPointers<P>(l: seq<Info>, live: map<P, Addr>, owned: set<Addr>, freed: multiset<Addr>, i: nat)
    requires Sound(l, live, Nothing, Nothing, owned, freed) && live == map[] && i < |l|
    ensures l[i].refcount == 0
  {
    EntryOfBlock(l, i);
    assert CountOk(l, live, Nothing, Nothing, l[i].memPtr);
  }
}
