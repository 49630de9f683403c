// The chain of exceptions threaded through the slots of a block.
//
// A block of n differences has n+1 slots of w bits. Slot 0 heads the chain; slot j+1
// holds difference j unless that is an exception, and then holds the gap to the next
// exception. A difference is an exception when it is too wide, and also when the gap
// would no longer fit its slot.

module ExceptionChain {
  import opened Bits
  import opened DeltaCoding

  datatype Option<T> = None | Some(value: T)

  // (1u << w) - 1, the largest value a slot holds
  function MaxEntry(w: nat): nat { Pow2(w) - 1 }

  // The slot of the last exception, -1 when there is none
  function LastOf(xs: seq<nat>): int {
    if xs == [] then -1 else xs[|xs| - 1]
  }

  // ---- what the encoder marks

  // Difference j becomes an exception, the last one so far being in slot `last`.
  predicate IsException(d: u32, j: nat, last: int, w: nat) {
    d > MaxEntry(w) || j - last >= MaxEntry(w)
  }

  // The exception slots among the first j differences
  function Exceptions(ds: seq<u32>, w: nat, j: nat): (xs: seq<nat>)
    requires j <= |ds|
    ensures |xs| <= j
  {
    if j == 0 then []
    else
      var xs := Exceptions(ds, w, j - 1);
      if IsException(ds[j - 1], j - 1, LastOf(xs), w) then xs + [j] else xs
  }

  function AllExceptions(ds: seq<u32>, w: nat): (xs: seq<nat>)
    ensures |xs| <= |ds|
  {
    Exceptions(ds, w, |ds|)
  }

  // In numbers: difference j is an exception if it needs more than w bits, or if 2^w - 1 slots
  // or more, counted from the last exception, would have to be skipped.
  lemma ExceptionInNumbers(ds: seq<u32>, w: nat, j: nat)
    requires j < |ds| && w >= 1
    ensures var xs := Exceptions(ds, w, j);
      var skipped := if xs == [] then j + 1 else j - xs[|xs| - 1];
      Exceptions(ds, w, j + 1) == if BitLength(ds[j]) > w || skipped >= Pow2(w) - 1 then xs + [j + 1] else xs
  {
    LengthIsLeastWidth(ds[j], w);
  }

  // What slot xs[i] holds: the gap to the next exception, less one, or the end mark
  function Link(xs: seq<nat>, i: nat, end: int): int
    requires i < |xs|
  {
    if i + 1 < |xs| then xs[i + 1] - xs[i] - 1 else end
  }

  ghost predicate LastIsGreatest(xs: seq<nat>) {
    forall i :: 0 <= i < |xs| - 1 ==> xs[i] < LastOf(xs)
  }

  // The exception slots increase within 1..j, and no gap outgrows a slot.
  ghost predicate ChainShape(xs: seq<nat>, w: nat, j: nat) {
    && (forall i :: 0 <= i < |xs| ==> 1 <= xs[i] <= j)
    && LastIsGreatest(xs)
    && (forall i {:trigger Link(xs, i, MaxEntry(w))} :: 0 <= i < |xs| ==> 0 <= Link(xs, i, MaxEntry(w)) <= MaxEntry(w))
    && (xs != [] ==> xs[0] <= MaxEntry(w))
    && j - LastOf(xs) <= MaxEntry(w)
  }

  lemma {:induction false} ExceptionsShape(ds: seq<u32>, w: nat, j: nat)
    requires j <= |ds| && w >= 1
    ensures ChainShape(Exceptions(ds, w, j), w, j)
  {
    if j > 0 {
      ExceptionsShape(ds, w, j - 1);
      var ys := Exceptions(ds, w, j - 1);
      if IsException(ds[j - 1], j - 1, LastOf(ys), w) { ShapeExtends(ys, w, j); }
    } else {
      Pow2Monotone(1, w);
    }
  }

  lemma {:induction false} NarrowUnlessException(ds: seq<u32>, w: nat, j: nat, k: nat)
    requires 1 <= k <= j <= |ds|
    requires k !in Exceptions(ds, w, j)
    ensures ds[k - 1] <= MaxEntry(w)
  {
    var ys := Exceptions(ds, w, j - 1);
    assert k !in ys;
    if k < j { NarrowUnlessException(ds, w, j - 1, k); }
  }

  lemma ShapeExtends(ys: seq<nat>, w: nat, j: nat)
    requires j >= 1 && w >= 1 && ChainShape(ys, w, j - 1)
    ensures ChainShape(ys + [j], w, j)
  {
    var xs := ys + [j];
    Pow2Monotone(1, w);
    var m := MaxEntry(w);
    forall i {:trigger Link(xs, i, m)} | 0 <= i < |xs| ensures 0 <= Link(xs, i, m) <= m {
      if i + 1 < |ys| { assert Link(xs, i, m) == Link(ys, i, m); }
    }
  }

  // ---- what a correct block holds

  // The head marker of a block without exceptions: only a byte is written.
  function NoException(w: nat): nat {
    if w <= 8 then MaxEntry(w) else 0xFF
  }

  // The difference that belongs to slot k
  function DiffOf(ds: seq<u32>, k: nat): u32
    requires 1 <= k <= |ds|
  {
    ds[k - 1]
  }

  // The slots and the exception list hold the first j differences, the chain runs through
  // the slots xs, and the value at its end is `end`.
  ghost predicate Holds(slots: seq<u32>, excs: seq<u32>, ds: seq<u32>, xs: seq<nat>, j: nat, end: nat) {
    && |slots| == |ds| + 1 && j <= |ds|
    && (forall i :: 0 <= i < |xs| ==> 1 <= xs[i] <= j)
    && slots[0] == (if xs == [] then end else xs[0])
    && (forall i {:trigger Link(xs, i, end)} :: 0 <= i < |xs| ==> slots[xs[i]] == Link(xs, i, end))
    && (forall k :: 1 <= k <= j && k !in xs ==> slots[k] == DiffOf(ds, k))
    && (forall k :: j < k <= |ds| ==> slots[k] == 0)
    && |excs| == |xs|
    && (forall i :: 0 <= i < |xs| ==> excs[i] == DiffOf(ds, xs[i]))
  }

  function EndMark(xs: seq<nat>, w: nat): nat {
    if xs == [] then NoException(w) else MaxEntry(w)
  }

  // The slots and the exception list stand for the differences ds at width w.
  ghost predicate Encodes(slots: seq<u32>, excs: seq<u32>, ds: seq<u32>, w: nat) {
    var xs := AllExceptions(ds, w);
    Holds(slots, excs, ds, xs, |ds|, EndMark(xs, w))
  }

  // In numbers: slot 0 holds the first exception's slot, or the low byte of the mask if there
  // is none; each exception's slot holds the gap to the next one, less one, and the last the
  // mask; every other slot holds its difference.
  ghost predicate SlotsInNumbers(slots: seq<u32>, ds: seq<u32>, xs: seq<nat>, w: nat) {
    && |slots| == |ds| + 1
    && slots[0] == (if xs != [] then xs[0] else if w <= 8 then Pow2(w) - 1 else 255)
    && (forall k :: 1 <= k <= |ds| && k !in xs ==> slots[k] == ds[k - 1])
    && (forall i :: 0 <= i < |xs| ==> xs[i] < |slots| && slots[xs[i]] == NextGap(xs, i, w))
  }

  // That settles the slots.
  lemma SlotsAgree(a: seq<u32>, b: seq<u32>, ds: seq<u32>, xs: seq<nat>, w: nat)
    requires SlotsInNumbers(a, ds, xs, w) && SlotsInNumbers(b, ds, xs, w)
    ensures a == b
  {
    hide Pow2, NextGap;
    forall k | 0 <= k < |a| ensures a[k] == b[k] {
      if k in xs {
        var i :| 0 <= i < |xs| && xs[i] == k;
      }
    }
  }

  function NextGap(xs: seq<nat>, i: nat, w: nat): int
    requires i < |xs|
  {
    if i + 1 < |xs| then xs[i + 1] - xs[i] - 1 else Pow2(w) - 1
  }

  lemma HoldsInNumbers(slots: seq<u32>, excs: seq<u32>, ds: seq<u32>, w: nat)
    requires Encodes(slots, excs, ds, w)
    ensures var xs := AllExceptions(ds, w);
      && SlotsInNumbers(slots, ds, xs, w)
      && |excs| == |xs| && forall i :: 0 <= i < |xs| ==> 1 <= xs[i] <= |ds| && excs[i] == ds[xs[i] - 1]
  {
    hide Pow2, AllExceptions;
    var xs := AllExceptions(ds, w);
    forall k | 1 <= k <= |ds| && k !in xs ensures slots[k] == ds[k - 1] { assert slots[k] == DiffOf(ds, k); }
    forall i | 0 <= i < |xs| ensures slots[xs[i]] == NextGap(xs, i, w) && excs[i] == ds[xs[i] - 1] {
      assert slots[xs[i]] == Link(xs, i, EndMark(xs, w));
      assert excs[i] == DiffOf(ds, xs[i]);
    }
  }

  // ---- how the encoder gets there

  // The slot the next link goes to
  function OpenSlot(xs: seq<nat>): nat {
    if xs == [] then 0 else xs[|xs| - 1]
  }

  lemma OpenSlotIsEmpty(slots: seq<u32>, excs: seq<u32>, ds: seq<u32>, xs: seq<nat>, j: nat)
    requires Holds(slots, excs, ds, xs, j, 0)
    ensures OpenSlot(xs) <= j && LastOf(xs) <= j && slots[OpenSlot(xs)] == 0
  {
    if xs != [] { assert Link(xs, |xs| - 1, 0) == 0; }
  }

  lemma HoldsNothing(slots: seq<u32>, ds: seq<u32>)
    requires |slots| == |ds| + 1
    requires forall k :: 0 <= k < |slots| ==> slots[k] == 0
    ensures Holds(slots, [], ds, [], 0, 0)
  {
  }

  lemma HoldsNormal(slots: seq<u32>, excs: seq<u32>, ds: seq<u32>, xs: seq<nat>, j: nat)
    requires j < |ds| && Holds(slots, excs, ds, xs, j, 0)
    ensures slots[j + 1] == 0
    ensures Holds(slots[j + 1 := ds[j]], excs, ds, xs, j + 1, 0)
  {
    var slots' := slots[j + 1 := ds[j]];
    forall i {:trigger Link(xs, i, 0)} | 0 <= i < |xs| ensures slots'[xs[i]] == Link(xs, i, 0) { assert xs[i] <= j; }
  }

  lemma HoldsException(slots: seq<u32>, excs: seq<u32>, ds: seq<u32>, xs: seq<nat>, j: nat)
    requires j < |ds| <= BLOCK_SIZE && LastIsGreatest(xs)
    requires Holds(slots, excs, ds, xs, j, 0)
    ensures OpenSlot(xs) <= j && LastOf(xs) <= j && slots[OpenSlot(xs)] == 0
    ensures Holds(slots[OpenSlot(xs) := j - LastOf(xs)], excs + [ds[j]], ds, xs + [j + 1], j + 1, 0)
  {
    OpenSlotIsEmpty(slots, excs, ds, xs, j);
    var slots' := slots[OpenSlot(xs) := j - LastOf(xs)];
    var ys := xs + [j + 1];
    forall i {:trigger Link(ys, i, 0)} | 0 <= i < |ys| ensures slots'[ys[i]] == Link(ys, i, 0) {
      NewLinks(slots, xs, j, i);
    }
    assert forall k :: k in ys <==> k in xs || k == j + 1;
  }

  lemma NewLinks(slots: seq<u32>, xs: seq<nat>, j: nat, i: nat)
    requires LastIsGreatest(xs) && j + 1 < |slots| <= BLOCK_SIZE + 1
    requires forall i :: 0 <= i < |xs| ==> 1 <= xs[i] <= j
    requires forall i {:trigger Link(xs, i, 0)} :: 0 <= i < |xs| ==> slots[xs[i]] == Link(xs, i, 0)
    requires slots[j + 1] == 0 && i <= |xs|
    ensures var ys := xs + [j + 1];
      ys[i] < |slots| && slots[OpenSlot(xs) := j - LastOf(xs)][ys[i]] == Link(ys, i, 0)
  {
    if i + 1 < |xs| {
      assert Link(xs + [j + 1], i, 0) == Link(xs, i, 0);
    }
  }

  lemma HoldsClosed(slots: seq<u32>, excs: seq<u32>, ds: seq<u32>, xs: seq<nat>, end: u32)
    requires LastIsGreatest(xs) && Holds(slots, excs, ds, xs, |ds|, 0)
    ensures OpenSlot(xs) <= |ds| && slots[OpenSlot(xs)] == 0
    ensures Holds(slots[OpenSlot(xs) := end], excs, ds, xs, |ds|, end)
  {
    OpenSlotIsEmpty(slots, excs, ds, xs, |ds|);
    var slots' := slots[OpenSlot(xs) := end];
    forall i {:trigger Link(xs, i, end)} | 0 <= i < |xs| ensures slots'[xs[i]] == Link(xs, i, end) {
      if i + 1 < |xs| {
          assert Link(xs, i, end) == Link(xs, i, 0);
      }
    }
  }

  // ---- what the decoder visits

  // The machine's sum, stored in a signed 32-bit integer
  function AsSigned(x: int): int {
    var y := x % 0x1_0000_0000;
    if y < 0x8000_0000 then y else y - 0x1_0000_0000
  }

  // Reads an exception: its value and the position after it.
  type Reader = (seq<u8>, nat) -> (u32, nat)

  // The slots once the exceptions have been put back from slot `shift` on, read from
  // position e, and where the last one ends. Each visited slot leads to the next; None where
  // a slot before the first or bytes outside the buffer would be touched.
  function Restore(read: Reader, slots: seq<u32>, shift: int, s: seq<u8>, e: nat): (r: Option<(seq<u32>, nat)>)
    ensures r.Some? ==> |r.value.0| == |slots|
    decreases |s| - e
  {
    if shift >= |slots| then Some((slots, e))
    else
      var (v, next) := read(s, e);
      if shift < 0 || !(e < next <= |s|) then None
      else Restore(read, slots[shift := v], AsSigned(shift + Add32(slots[shift], 1)), s, next)
  }

  // The slots visited from slot `shift` on, as long as no link leads back. The position is a
  // signed 32-bit integer: beyond its range, below zero after wrapping, there is no slot.
  function Walk(slots: seq<u32>, shift: nat): Option<seq<nat>>
    decreases |slots| - shift
  {
    if shift >= 0x8000_0000 then None
    else if shift >= |slots| then Some([])
    else
      match Walk(slots, shift + slots[shift] + 1)
      case None => None
      case Some(rest) => Some([shift] + rest)
  }

  // The exceptions put back over the visited slots
  function Patch(slots: seq<u32>, xs: seq<nat>, excs: seq<u32>): (r: seq<u32>)
    requires |xs| == |excs|
    requires forall i :: 0 <= i < |xs| ==> xs[i] < |slots|
    ensures |r| == |slots|
    decreases |xs|
  {
    if xs == [] then slots else Patch(slots[xs[0] := excs[0]], xs[1..], excs[1..])
  }

  lemma {:induction false} WalkInside(slots: seq<u32>, shift: nat)
    ensures Walk(slots, shift).Some? ==>
      forall i :: 0 <= i < |Walk(slots, shift).value| ==> shift <= Walk(slots, shift).value[i] < |slots|
    decreases |slots| - shift
  {
    if shift < |slots| && shift < 0x8000_0000 { WalkInside(slots, shift + slots[shift] + 1); }
  }

  // No link leads back to an earlier slot by wrapping.
  ghost predicate Forward(slots: seq<u32>) {
    |slots| < 0x8000_0000 && forall k :: 0 <= k < |slots| ==> k + slots[k] + 1 < 0x1_0000_0000
  }

  // One turn of the loop
  lemma RestoreOnce(read: Reader, slots: seq<u32>, shift: int, s: seq<u8>, e: nat)
    ensures Restore(read, slots, shift, s, e) ==
      if shift >= |slots| then Some((slots, e))
      else
        var (v, next) := read(s, e);
        if shift < 0 || !(e < next <= |s|) then None
        else Restore(read, slots[shift := v], AsSigned(shift + Add32(slots[shift], 1)), s, next)
  {
    hide AsSigned, Add32;
  }

  lemma RestoreStep(read: Reader, slots: seq<u32>, shift: nat, s: seq<u8>, e: nat)
    requires shift < |slots| < 0x8000_0000
    ensures Restore(read, slots, AsSigned(shift), s, e) ==
      var (v, next) := read(s, e);
      if !(e < next <= |s|) then None
      else Restore(read, slots[shift := v], AsSigned(shift + slots[shift] + 1), s, next)
  {
    hide Restore;
    assert AsSigned(shift) == shift;
    assert AsSigned(shift + Add32(slots[shift], 1)) == AsSigned(shift + slots[shift] + 1);
    RestoreOnce(read, slots, shift, s, e);
  }

  lemma RestoreStops(read: Reader, slots: seq<u32>, shift: u32, s: seq<u8>, e: nat)
    requires |slots| <= shift && |slots| < 0x8000_0000
    ensures Restore(read, slots, AsSigned(shift), s, e) == if shift < 0x8000_0000 then Some((slots, e)) else None
  {
  }

  // Then what is put back goes into slots of the walk, and the walk stays in range.
  lemma {:induction false} RestoreVisits(read: Reader, slots: seq<u32>, cur: seq<u32>, shift: u32, s: seq<u8>, e: nat)
    requires Forward(slots) && |cur| == |slots| && forall k :: shift <= k < |slots| ==> cur[k] == slots[k]
    ensures var r := Restore(read, cur, AsSigned(shift), s, e);
      r.Some? ==>
        && Walk(slots, shift).Some?
        && forall k :: 0 <= k < |slots| && k !in Walk(slots, shift).value ==> r.value.0[k] == cur[k]
    decreases |slots| - shift
  {
    hide Restore, AsSigned;
    if shift < |slots| {
      RestoreStep(read, cur, shift, s, e);
      var (v, next) := read(s, e);
      if e < next <= |s| { RestoreVisits(read, slots, cur[shift := v], shift + slots[shift] + 1, s, next); }
    } else {
      RestoreStops(read, cur, shift, s, e);
    }
  }

  // Value i is read at its position.
  predicate ReadsAt(read: Reader, s: seq<u8>, vs: seq<u32>, es: seq<nat>, i: nat) {
    i < |vs| && i + 1 < |es| && read(s, es[i]) == (vs[i], es[i + 1]) && es[i] < es[i + 1] <= |s|
  }

  // And if the exceptions can be read, they go into the slots of the walk, in order.
  lemma {:induction false} RestoreReads(read: Reader, slots: seq<u32>, cur: seq<u32>, shift: u32, s: seq<u8>,
                                        xs: seq<nat>, vs: seq<u32>, es: seq<nat>)
    requires Forward(slots) && |cur| == |slots| && forall k :: shift <= k < |slots| ==> cur[k] == slots[k]
    requires Walk(slots, shift) == Some(xs) && forall i :: 0 <= i < |xs| ==> xs[i] < |slots|
    requires |vs| == |xs| && |es| == |xs| + 1 && forall i :: 0 <= i < |xs| ==> ReadsAt(read, s, vs, es, i)
    ensures Restore(read, cur, AsSigned(shift), s, es[0]) == Some((Patch(cur, xs, vs), es[|xs|]))
    decreases |slots| - shift
  {
    hide Restore, AsSigned;
    if shift < |slots| {
      RestoreStep(read, cur, shift, s, es[0]);
      assert ReadsAt(read, s, vs, es, 0);
      forall i | 0 <= i < |xs| - 1 ensures ReadsAt(read, s, vs[1..], es[1..], i) {
        assert ReadsAt(read, s, vs, es, i + 1);
      }
      RestoreReads(read, slots, cur[shift := vs[0]], shift + slots[shift] + 1, s, xs[1..], vs[1..], es[1..]);
    } else {
      RestoreStops(read, cur, shift, s, es[0]);
    }
  }

  // ---- the decoder finds the encoder's chain

  // One link leads from the slot of exception i to the next one, or past the block.
  ghost predicate Leads(slots: seq<u32>, xs: seq<nat>, i: nat, w: nat)
    requires i < |xs|
  {
    && xs[i] < |slots| <= BLOCK_SIZE + 1
    && var next := xs[i] + slots[xs[i]] + 1;
       if i + 1 < |xs| then next == xs[i + 1]
       else next >= |slots| && (next >= 0x8000_0000 <==> w == 31)
  }

  lemma LinkLeads(slots: seq<u32>, excs: seq<u32>, ds: seq<u32>, w: nat, i: nat)
    requires |ds| <= BLOCK_SIZE && 1 <= w <= 31
    requires Encodes(slots, excs, ds, w)
    requires i < |AllExceptions(ds, w)|
    ensures Leads(slots, AllExceptions(ds, w), i, w)
  {
    ExceptionsShape(ds, w, |ds|);
    var xs := AllExceptions(ds, w);
    var end := EndMark(xs, w);
    assert slots[xs[i]] == Link(xs, i, end);
    if i + 1 == |xs| {
      assert xs[i] == LastOf(xs);
      Pow2Values();
      if w <= 30 { Pow2Monotone(w, 30); }
    }
  }

  lemma {:induction false} WalkFollowsLinks(slots: seq<u32>, xs: seq<nat>, w: nat, i: nat)
    requires forall k :: 0 <= k < |xs| ==> Leads(slots, xs, k, w)
    requires i < |xs|
    ensures Walk(slots, xs[i]) == if w != 31 then Some(xs[i..]) else None
    decreases |xs| - i
  {
    assert Leads(slots, xs, i, w);
    if i + 1 < |xs| {
      WalkFollowsLinks(slots, xs, w, i + 1);
      assert xs[i..] == [xs[i]] + xs[i + 1..];
    } else {
      assert xs[i..] == [xs[i]] + [];
    }
  }

  // At width 30 and below the walk visits exactly the encoder's exceptions, in order, and
  // stops; at width 31 it still recognises a block without exceptions, and runs off
  // otherwise.
  lemma WalkFindsExceptions(slots: seq<u32>, excs: seq<u32>, ds: seq<u32>, w: nat)
    requires 1 <= |ds| <= BLOCK_SIZE && 1 <= w <= 31
    requires Encodes(slots, excs, ds, w)
    ensures Walk(slots, slots[0])
         == if w <= 30 || AllExceptions(ds, w) == [] then Some(AllExceptions(ds, w)) else None
  {
    var xs := AllExceptions(ds, w);
    if xs == [] {
      assert |ds| + 1 <= MaxEntry(w);
      Pow2Values();
      if w <= 8 { Pow2Monotone(w, 8); }
    } else {
      forall k | 0 <= k < |xs| ensures Leads(slots, xs, k, w) { LinkLeads(slots, excs, ds, w, k); }
      WalkFollowsLinks(slots, xs, w, 0);
      assert xs[0..] == xs;
    }
  }

  lemma {:induction false} PatchRestores(slots: seq<u32>, xs: seq<nat>, excs: seq<u32>, ds: seq<u32>)
    requires |xs| == |excs| && |slots| == |ds| + 1
    requires forall i :: 0 <= i < |xs| ==> 1 <= xs[i] < |slots|
    requires forall i :: 0 <= i < |xs| ==> excs[i] == DiffOf(ds, xs[i])
    requires forall k :: 1 <= k < |slots| && k !in xs ==> slots[k] == DiffOf(ds, k)
    ensures Patch(slots, xs, excs)[1..] == ds
    decreases |xs|
  {
    if xs == [] {
      forall k | 0 <= k < |ds| ensures slots[1..][k] == ds[k] { assert slots[k + 1] == DiffOf(ds, k + 1); }
    } else {
      var s := slots[xs[0] := excs[0]];
      forall k | 1 <= k < |s| && k !in xs[1..] ensures s[k] == DiffOf(ds, k) {
        assert k == xs[0] || k !in xs;
      }
      PatchRestores(s, xs[1..], excs[1..], ds);
    }
  }

  // Putting the exceptions back over the visited slots recovers every difference.
  lemma PatchInvertsEncoding(slots: seq<u32>, excs: seq<u32>, ds: seq<u32>, w: nat, xs: seq<nat>)
    requires xs == AllExceptions(ds, w)
    requires Encodes(slots, excs, ds, w)
    ensures |xs| == |excs| && |slots| == |ds| + 1
    ensures forall i :: 0 <= i < |xs| ==> xs[i] < |slots|
    ensures Patch(slots, xs, excs)[1..] == ds
  {
    PatchRestores(slots, xs, excs, ds);
  }

  // At width 31 only a difference of 2^31 or more makes an exception.
  lemma {:induction false} ExceptionsAt31(ds: seq<u32>, j: nat)
    requires j <= |ds| <= BLOCK_SIZE
    ensures Exceptions(ds, 31, j) == [] <==> forall k :: 0 <= k < j ==> ds[k] < 0x8000_0000
  {
    Pow2Values();
    if j > 0 {
      ExceptionsAt31(ds, j - 1);
      ExceptionsShape(ds, 31, j - 1);
    }
  }

  // ---- how many exceptions there can be

  // A forced exception uses up 2^w slots of the chain.
  lemma {:induction false} ForcedExceptionsSpread(ds: seq<u32>, w: nat, j: nat)
    requires j <= |ds| && w >= 1
    ensures (|Exceptions(ds, w, j)| - TooWide(ds, w, j)) * Pow2(w) <= LastOf(Exceptions(ds, w, j)) + 1
  {
    if j > 0 {
      ForcedExceptionsSpread(ds, w, j - 1);
      ExceptionsShape(ds, w, j - 1);
      var f := |Exceptions(ds, w, j - 1)| - TooWide(ds, w, j - 1);
      var last := LastOf(Exceptions(ds, w, j - 1));
      if ds[j - 1] >= Pow2(w) {
        assert IsException(ds[j - 1], j - 1, last, w);
      } else if IsException(ds[j - 1], j - 1, last, w) {
        assert j - last == Pow2(w);
        assert (f + 1) * Pow2(w) == f * Pow2(w) + Pow2(w);
      }
    }
  }

  // Each forced exception accounts for 2^w of the n + 1 slots.
  function MostForced(n: nat, w: nat): nat {
    (n + 1) / Pow2(w)
  }

  // With the chosen width, at most a tenth of the differences are too wide, and the
  // others that are exceptions are forced.
  lemma ExceptionBound(ds: seq<u32>)
    requires |ds| >= 1
    ensures |AllExceptions(ds, BitSize(ds))|
         <= (|ds| - Quota(|ds|)) + MostForced(|ds|, BitSize(ds))
  {
    hide Exceptions, TooWide, Fitting, BitLength, Pow2;
    var n, w := |ds|, BitSize(ds);
    var xs := AllExceptions(ds, w);
    FittingOrTooWide(ds, w, n);
    assert ds[..n] == ds;
    ForcedExceptionsSpread(ds, w, n);
    ExceptionsShape(ds, w, n);
    var f := |xs| - TooWide(ds, w, n);
    assert f * Pow2(w) <= n + 1;
    QuotientBound(f, Pow2(w), n + 1);
  }

  lemma QuotientBound(f: int, p: nat, m: nat)
    requires p >= 1 && f * p <= m
    ensures f <= m / p
  {
    if f >= m / p + 1 {
      MulMonotone(m / p + 1, f, p);
    }
  }

  lemma MulMonotone(a: int, b: int, p: nat)
    requires a <= b
    ensures a * p <= b * p
  {
  }
}
