// The sequential reference-counting collector: pointer objects, and the list they share.

module GcSequential {
  import opened GcList

  // A counted pointer
  class GCPtr {
    var addr: Addr

    constructor (t: Addr)
      ensures addr == t
    {
      addr := t;
    }
  }

  // The entries still referenced
  function Kept(l: seq<Info>): seq<Info> {
    if l == [] then [] else (if l[0].refcount > 0 then [l[0]] else []) + Kept(l[1..])
  }

  // The non-null blocks without references
  function Garbage(l: seq<Info>): multiset<Addr> {
    if l == [] then multiset{}
    else if l[0].refcount == 0 && l[0].memPtr != 0 then multiset{l[0].memPtr} + Garbage(l[1..])
    else Garbage(l[1..])
  }

  lemma {:induction false} AllKept(l: seq<Info>)
    requires forall i :: 0 <= i < |l| ==> l[i].refcount > 0
    ensures Kept(l) == l && Garbage(l) == multiset{}
  {
    if l != [] { AllKept(l[1..]); }
  }

  lemma {:induction false} NoneOfBlock(l: seq<Info>, t: Addr)
    requires forall k :: 0 <= k < |l| ==> l[k].memPtr != t
    ensures Dropped(l, t) == l
  {
    if l != [] { NoneOfBlock(l[1..], t); }
  }

  // Dropping one garbage entry leaves the kept ones and the rest of the garbage.
  lemma {:induction false} DropGarbage(l: seq<Info>, i: nat)
    requires DistinctBlocks(l) && i < |l| && l[i].refcount == 0
    ensures Kept(Dropped(l, l[i].memPtr)) == Kept(l)
    ensures Freed(Garbage(Dropped(l, l[i].memPtr)), l[i].memPtr) == Garbage(l)
  {
    var t := l[i].memPtr;
    if i == 0 {
      NoneOfBlock(l[1..], t);
      assert Dropped(l, t) == l[1..];
    } else {
      assert l[1..][i - 1] == l[i];
      DropGarbage(l[1..], i - 1);
      var r := Dropped(l[1..], t);
      assert Dropped(l, t) == [l[0]] + r && ([l[0]] + r)[1..] == r;
    }
  }

  // What all pointers of one type share
  class Collector {
    var gclist: seq<Info>
    ghost var live: map<GCPtr, Addr>   // the live pointers and where they point
    ghost var owned: set<Addr>         // every non-null block ever handed in
    ghost var freed: multiset<Addr>    // the blocks freed

    ghost predicate Valid()
      reads this, live.Keys
    {
      && (forall p :: p in live ==> p.addr == live[p])
      && Sound(gclist, live, Nothing, Nothing, owned, freed)
    }

    constructor ()
      ensures Valid() && gclist == [] && live == map[] && owned == {} && freed == multiset{}
    {
      gclist, live, owned, freed := [], map[], {}, multiset{};
    }

    // GCPtr(t). The raw pointer is null, already counted, or new: not one that was freed.
    method Construct(t: Addr) returns (p: GCPtr)
      requires Valid() && t !in freed
      modifies this
      ensures Valid() && fresh(p) && p.addr == t
      ensures live == old(live)[p := t] && owned == Owned(old(owned), t) && freed == old(freed)
      ensures gclist == Referenced(old(gclist), t)
    {
      hide Sound;
      SoundReferenced(gclist, live, Nothing, owned, freed, t);
      Reference(t);
      p := new GCPtr(t);
      SoundBorn(gclist, live, owned, freed, p, t);
      live := live[p := t];
    }

    // The part of construction and assignment that counts one more reference: an entry of
    // its own when the block has none
    method Reference(t: Addr)
      modifies this`gclist, this`owned
      ensures gclist == Referenced(old(gclist), t) && owned == Owned(old(owned), t)
    {
      var i := FindPtrInfo(t);
      if i < |gclist| {
        gclist := gclist[i := gclist[i].(refcount := gclist[i].refcount + 1)];
      } else {
        gclist := [Info(1, t)] + gclist;
      }
      owned := Owned(owned, t);
    }

    // p->refcount++ on a listed block
    method CountMore(t: Addr)
      requires Find(gclist, t) < |gclist|
      modifies this`gclist
      ensures gclist == Referenced(old(gclist), t)
    {
      var i := FindPtrInfo(t);
      gclist := gclist[i := gclist[i].(refcount := gclist[i].refcount + 1)];
    }

    // p->refcount--
    method Uncount(t: Addr)
      requires Find(gclist, t) < |gclist| && gclist[Find(gclist, t)].refcount > 0
      modifies this`gclist
      ensures gclist == Uncounted(old(gclist), t)
    {
      var i := FindPtrInfo(t);
      gclist := gclist[i := gclist[i].(refcount := gclist[i].refcount - 1)];
    }

    method FindPtrInfo(t: Addr) returns (i: nat)
      ensures i == Find(gclist, t)
    {
      i := 0;
      while i < |gclist| && gclist[i].memPtr != t
        invariant i <= |gclist| && Find(gclist, t) == i + Find(gclist[i..], t)
      {
        assert gclist[i..][1..] == gclist[i + 1..];
        i := i + 1;
      }
    }

    // GCPtr(ob)
    method CopyConstruct(ob: GCPtr) returns (p: GCPtr)
      requires Valid() && ob in live
      modifies this
      ensures Valid() && fresh(p) && p.addr == ob.addr
      ensures live == old(live)[p := ob.addr] && owned == old(owned) && freed == old(freed)
      ensures gclist == Referenced(old(gclist), ob.addr)
    {
      LiveIsListed(gclist, live, owned, freed, ob);
      hide Sound;
      SoundReferenced(gclist, live, Nothing, owned, freed, ob.addr);
      CountMore(ob.addr);
      p := new GCPtr(ob.addr);
      SoundBorn(gclist, live, owned, freed, p, ob.addr);
      live := live[p := ob.addr];
    }

    // operator=(t)
    method AssignRaw(p: GCPtr, t: Addr)
      requires Valid() && p in live && t !in freed
      modifies this, p
      ensures Valid() && p.addr == t
      ensures live == old(live)[p := t] && owned == Owned(old(owned), t) && freed == old(freed)
      ensures var a := old(live)[p];
        && Find(old(gclist), a) < |old(gclist)| && old(gclist)[Find(old(gclist), a)].refcount > 0
        && gclist == Referenced(Uncounted(old(gclist), a), t)
    {
      hide Sound;
      SoundUncounted(gclist, live, owned, freed, p);
      Uncount(p.addr);
      SoundReferenced(gclist, live, Just(live[p]), owned, freed, t);
      Reference(t);
      SoundMoved(gclist, live, owned, freed, p, t);
      p.addr := t;
      live := live[p := t];
    }

    // operator=(rv)
    method Assign(p: GCPtr, rv: GCPtr)
      requires Valid() && p in live && rv in live
      modifies this, p
      ensures Valid() && p.addr == old(rv.addr)
      ensures live == old(live)[p := old(rv.addr)] && owned == old(owned) && freed == old(freed)
      ensures var a := old(live)[p];
        && Find(old(gclist), a) < |old(gclist)| && old(gclist)[Find(old(gclist), a)].refcount > 0
        && gclist == Referenced(Uncounted(old(gclist), a), old(rv.addr))
    {
      LiveIsListed(gclist, live, owned, freed, rv);
      hide Sound, Referenced, Uncounted, Find, RefOf;
      SoundUncounted(gclist, live, owned, freed, p);
      ghost var t := rv.addr;
      Uncount(p.addr);
      StillListed(old(gclist), live[p], t);
      SoundReferenced(gclist, live, Just(live[p]), owned, freed, t);
      CountMore(rv.addr);
      SoundMoved(gclist, live, owned, freed, p, t);
      p.addr := rv.addr;
      live := live[p := t];
    }

    // ~GCPtr(). Every destructor collects; after the last one the list is empty and each
    // block ever handed in has been freed exactly once.
    method Destroy(p: GCPtr)
      requires Valid() && p in live
      modifies this
      ensures Valid()
      ensures live == old(live) - {p} && owned == old(owned)
      ensures var i := Find(old(gclist), old(live)[p]);
        && i < |old(gclist)| && old(gclist)[i].refcount > 0
        && gclist == Kept(Uncounted(old(gclist), old(live)[p]))
        && freed == old(freed) + Garbage(Uncounted(old(gclist), old(live)[p]))
      ensures live == map[] ==> gclist == [] && forall a :: a in owned ==> freed[a] == 1
    {
      SoundUncounted(gclist, live, owned, freed, p);
      hide Sound;
      var i := FindPtrInfo(p.addr);
      if gclist[i].refcount > 0 {
        gclist := gclist[i := gclist[i].(refcount := gclist[i].refcount - 1)];
      }
      SoundGone(gclist, live, owned, freed, p);
      live := live - {p};
      var memfreed := Collect();
      AllFreedAtEnd(gclist, live, owned, freed);
    }

    // Frees the blocks without references and drops their entries, and nothing else.
    method Collect() returns (memfreed: bool)
      requires Valid()
      modifies this`gclist, this`freed
      ensures Valid()
      ensures gclist == Kept(old(gclist)) && freed == old(freed) + Garbage(old(gclist))
      ensures forall i :: 0 <= i < |gclist| ==> gclist[i].refcount > 0
      ensures memfreed <==> exists i :: 0 <= i < |old(gclist)| && old(gclist)[i].refcount == 0
    {
      hide Kept, Garbage, Dropped, Sound;
      memfreed := false;
      var again := true;
      while again
        invariant Valid()
        invariant Kept(gclist) == Kept(old(gclist))
        invariant freed + Garbage(gclist) == old(freed) + Garbage(old(gclist))
        invariant !again ==> forall i :: 0 <= i < |gclist| ==> gclist[i].refcount > 0
        invariant memfreed || gclist == old(gclist)
        invariant memfreed ==> exists i :: 0 <= i < |old(gclist)| && old(gclist)[i].refcount == 0
        decreases |gclist|, again
      {
        var i := 0;
        while i < |gclist| && gclist[i].refcount > 0
          invariant i <= |gclist|
          invariant forall k :: 0 <= k < i ==> gclist[k].refcount > 0
        {
          i := i + 1;
        }
        again := i < |gclist|;
        if again {
          memfreed := true;
          var entry := gclist[i];
          SoundFreed(gclist, live, owned, freed, i);
          SoundIsDistinct(gclist, live, owned, freed);
          DropGarbage(gclist, i);
          gclist := Dropped(gclist, entry.memPtr);
          freed := Freed(freed, entry.memPtr);
        }
      }
      AllKept(gclist);
    }
  }

  lemma SoundIsDistinct<P>(l: seq<Info>, live: map<P, Addr>, owned: set<Addr>, freed: multiset<Addr>)
    requires Sound(l, live, Nothing, Nothing, owned, freed)
    ensures DistinctBlocks(l)
  {
  }

  lemma LiveIsListed<P>(l: seq<Info>, live: map<P, Addr>, owned: set<Addr>, freed: multiset<Addr>, p: P)
    requires Sound(l, live, Nothing, Nothing, owned, freed) && p in live
    ensures Find(l, live[p]) < |l|
    ensures live[p] !in freed && Owned(owned, live[p]) == owned
  {
    PointerCounts(live, p);
    assert CountOk(l, live, Nothing, Nothing, live[p]);
    FindListed(l, live[p]);
  }

  lemma StillListed(l: seq<Info>, a: Addr, t: Addr)
    requires Find(l, a) < |l| && l[Find(l, a)].refcount > 0 && Find(l, t) < |l|
    ensures Find(Uncounted(l, a), t) < |Uncounted(l, a)|
  {
    FindListed(l, t);
    FindListed(Uncounted(l, a), t);
    AfterUncounted(l, a, t);
  }

  lemma AllFreedAtEnd<P>(l: seq<Info>, live: map<P, Addr>, owned: set<Addr>, freed: multiset<Addr>)
    requires Sound(l, live, Nothing, Nothing, owned, freed)
    requires forall i :: 0 <= i < |l| ==> l[i].refcount > 0
    ensures live == map[] ==> l == [] && forall a :: a in owned ==> freed[a] == 1
  {
    if live == map[] {
      if l != [] { SoundWithoutPointers(l, live, owned, freed, 0); }
      assert forall a :: a in owned ==> !Listed(l, a);
    }
  }
}
