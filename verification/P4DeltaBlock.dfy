// Blocks of the improved codec as bytes. They differ from the older codec's in the
// exception area, which holds variable-length integers.

module P4DeltaBlock {
  import opened Bits
  import opened ByteStream
  import opened DeltaCoding
  import opened ExceptionChain
  import opened BlockFormat
  import opened PackedMemory

  // The variable-length integer codec: the bytes of a value, and the value and end of the
  // integer that starts at a position. Its code lives outside this repository.
  type VarintEncoder = u32 -> seq<u8>
  type VarintDecoder = Reader

  predicate HasAt(s: seq<u8>, p: nat, bytes: seq<u8>) {
    p + |bytes| <= |s| && s[p..p + |bytes|] == bytes
  }

  // What the block codec relies on: at most five bytes a value, and decoding where a value
  // was encoded yields the value and the position after it.
  ghost predicate VarintPair(enc: VarintEncoder, dec: VarintDecoder) {
    && (forall v: u32 :: |enc(v)| <= 5)
    && (forall v: u32, s: seq<u8>, p: nat :: HasAt(s, p, enc(v)) ==> dec(s, p) == (v, p + |enc(v)|))
  }

  function EncodeAll(enc: VarintEncoder, vs: seq<u32>): seq<u8> {
    if vs == [] then [] else EncodeAll(enc, vs[..|vs| - 1]) + enc(vs[|vs| - 1])
  }

  // No value is encoded as nothing: reading it would then shadow any other.
  lemma EncodingTakesBytes(enc: VarintEncoder, dec: VarintDecoder, v: u32)
    requires VarintPair(enc, dec)
    ensures |enc(v)| >= 1
  {
    var other: u32 := if v == 0 then 1 else 0;
    var s := enc(other);
    assert s[0..|s|] == s;
    assert HasAt(s, 0, enc(other)) && dec(s, 0).0 == other;
    if enc(v) == [] { assert HasAt(s, 0, enc(v)); }
  }

  // In a row of integers each is found where those before it end.
  lemma {:induction false} EncodedAt(enc: VarintEncoder, s: seq<u8>, p: nat, vs: seq<u32>, i: nat)
    requires HasAt(s, p, EncodeAll(enc, vs)) && i < |vs|
    ensures |EncodeAll(enc, vs[..i + 1])| == |EncodeAll(enc, vs[..i])| + |enc(vs[i])|
    ensures HasAt(s, p + |EncodeAll(enc, vs[..i])|, enc(vs[i]))
  {
    var us, v := vs[..|vs| - 1], vs[|vs| - 1];
    var a := EncodeAll(enc, us);
    assert EncodeAll(enc, vs) == a + enc(v);
    if i < |us| {
      assert s[p..p + |a|] == (a + enc(v))[..|a|];
      EncodedAt(enc, s, p, us, i);
      assert us[..i] == vs[..i] && us[..i + 1] == vs[..i + 1];
    } else {
      assert vs[..i] == us && vs[..i + 1] == vs;
      assert s[p + |a|..p + |a| + |enc(v)|] == (a + enc(v))[|a|..];
    }
  }

  // Where each integer of the row starts, and where the last one ends
  function RowStarts(enc: VarintEncoder, p: nat, vs: seq<u32>): (es: seq<nat>)
    ensures |es| == |vs| + 1
  {
    seq(|vs| + 1, i requires 0 <= i <= |vs| => p + |EncodeAll(enc, vs[..i])|)
  }

  // So a row of integers is read back, each within the buffer.
  lemma ReadsRow(enc: VarintEncoder, dec: VarintDecoder, s: seq<u8>, p: nat, vs: seq<u32>)
    requires VarintPair(enc, dec) && HasAt(s, p, EncodeAll(enc, vs))
    ensures var es := RowStarts(enc, p, vs);
      && es[0] == p && es[|vs|] == p + |EncodeAll(enc, vs)|
      && forall i :: 0 <= i < |vs| ==> ReadsAt(dec, s, vs, es, i)
  {
    hide EncodeAll, VarintPair, HasAt;
    EncodeNone(enc);
    assert vs[..0] == [] && vs[..|vs|] == vs;
    forall i | 0 <= i < |vs| ensures ReadsAt(dec, s, vs, RowStarts(enc, p, vs), i) { ReadsOne(enc, dec, s, p, vs, i); }
  }

  lemma ReadsOne(enc: VarintEncoder, dec: VarintDecoder, s: seq<u8>, p: nat, vs: seq<u32>, i: nat)
    requires VarintPair(enc, dec) && HasAt(s, p, EncodeAll(enc, vs)) && i < |vs|
    ensures ReadsAt(dec, s, vs, RowStarts(enc, p, vs), i)
  {
    hide EncodeAll, VarintPair, HasAt;
    EncodedAt(enc, s, p, vs, i);
    EncodingTakesBytes(enc, dec, vs[i]);
    DecodedHere(enc, dec, s, p + |EncodeAll(enc, vs[..i])|, vs[i]);
  }

  lemma DecodedHere(enc: VarintEncoder, dec: VarintDecoder, s: seq<u8>, p: nat, v: u32)
    requires VarintPair(enc, dec) && HasAt(s, p, enc(v))
    ensures dec(s, p) == (v, p + |enc(v)|) && p + |enc(v)| <= |s|
  {
  }

  lemma EncodeNone(enc: VarintEncoder)
    ensures EncodeAll(enc, []) == []
  {
  }

  lemma {:induction false} EncodeAllLength(enc: VarintEncoder, vs: seq<u32>)
    requires forall v: u32 :: |enc(v)| <= 5
    ensures |EncodeAll(enc, vs)| <= 5 * |vs|
  {
    if vs != [] { EncodeAllLength(enc, vs[..|vs| - 1]); }
  }

  // ---- blocks

  // What the encoder's loop maintains: the first j differences are held, the exceptions so
  // far are excs, and their bytes end at e.
  ghost predicate PartialP4(s: seq<u8>, enc: VarintEncoder, ds: seq<u32>, w: nat,
                            xs: seq<nat>, excs: seq<u32>, j: nat, end: nat, e: nat) {
    && 1 <= w <= 31
    && e == 1 + PackedBytes(w, |ds|) + |EncodeAll(enc, excs)|
    && 1 + PackedBytes(w, |ds|) <= |s| && s[0] == w
    && HasAt(s, 1 + PackedBytes(w, |ds|), EncodeAll(enc, excs))
    && Holds(ReadSlots(s, w, |ds|), excs, ds, xs, j, end)
  }

  // The bytes of s up to e are the block of the differences ds at width w.
  ghost predicate IsP4Block(s: seq<u8>, enc: VarintEncoder, ds: seq<u32>, w: nat, excs: seq<u32>, e: nat) {
    var xs := AllExceptions(ds, w);
    PartialP4(s, enc, ds, w, xs, excs, |ds|, EndMark(xs, w), e)
  }

  // The format in numbers: the width byte, the slots of the older codec after it, and after
  // them the exceptions, each as its integer's bytes.
  lemma P4BlockInNumbers(s: seq<u8>, enc: VarintEncoder, ds: seq<u32>, w: nat, excs: seq<u32>, e: nat)
    requires 1 <= |ds| <= BLOCK_SIZE && IsP4Block(s, enc, ds, w, excs, e)
    ensures 1 <= w <= 31 && s[0] == w && 1 + PackedBytes(w, |ds|) <= |s|
    ensures SlotsInNumbers(ReadSlots(s, w, |ds|), ds, AllExceptions(ds, w), w)
    ensures |excs| == |AllExceptions(ds, w)| && e == 1 + (w * (|ds| + 1) + 7) / 8 + |EncodeAll(enc, excs)|
    ensures HasAt(s, 1 + (w * (|ds| + 1) + 7) / 8, EncodeAll(enc, excs))
    ensures forall i :: 0 <= i < |excs| ==>
      1 <= AllExceptions(ds, w)[i] <= |ds| && excs[i] == ds[AllExceptions(ds, w)[i] - 1]
  {
    hide PackedBytes, AllExceptions, EncodeAll, HasAt, IsP4Block, Encodes, ReadSlots, SlotsInNumbers;
    P4BlockEncodes(s, enc, ds, w, excs, e);
    PackedBytesProduct(w, |ds|);
    HoldsInNumbers(ReadSlots(s, w, |ds|), excs, ds, w);
  }

  lemma P4BlockEncodes(s: seq<u8>, enc: VarintEncoder, ds: seq<u32>, w: nat, excs: seq<u32>, e: nat)
    requires IsP4Block(s, enc, ds, w, excs, e)
    ensures 1 <= w <= 31 && 1 + PackedBytes(w, |ds|) <= |s| && s[0] == w
    ensures Encodes(ReadSlots(s, w, |ds|), excs, ds, w)
    ensures e == 1 + PackedBytes(w, |ds|) + |EncodeAll(enc, excs)|
    ensures HasAt(s, 1 + PackedBytes(w, |ds|), EncodeAll(enc, excs))
  {
    hide PackedBytes, SlotBits, AllExceptions, Pow2, StreamSlot, Holds, EncodeAll, HasAt;
  }

  // What the decoder sees in slots 0..n: it unpacks n rounded up to whole groups of 32, so
  // for n a multiple of 32 the last slot keeps what the output array held before.
  function P4Slots(s: seq<u8>, w: nat, n: nat, stale: u32): (slots: seq<u32>)
    requires 1 <= w <= 32 && 1 + PackedBytes(w, n) <= |s|
    ensures |slots| == n + 1
  {
    if n % 32 == 0 then ReadSlots(s, w, n)[n := stale] else ReadSlots(s, w, n)
  }

  // The width that is unpacked: the header's, and 32 for every other header
  function UnpackedWidth(header: u8): (w: nat)
    ensures 1 <= w <= 32
  {
    if 1 <= header <= 31 then header else 32
  }

  // The values decoded and the position after the block; None where something outside the
  // buffers would be read or written.
  function P4Decode(dec: VarintDecoder, s: seq<u8>, n: nat, stale: u32): Option<(seq<u32>, nat)>
    requires |s| >= 1
  {
    var w := UnpackedWidth(s[0]);
    if 1 + PackedBytes(w, n) > |s| then None
    else
      var slots := P4Slots(s, w, n, stale);
      match Restore(dec, slots, AsSigned(slots[0]), s, 1 + PackedBytes(s[0], n))
      case None => None
      case Some((all, e)) => Some((Sums(all[1..], 0), e))
  }

  // Decoding inverts encoding for every list length that is not a multiple of 32, exactly
  // when the width is at most 30 or there are no exceptions.
  lemma P4DecodeInverts(enc: VarintEncoder, dec: VarintDecoder, s: seq<u8>, docs: seq<u32>,
                        w: nat, excs: seq<u32>, e: nat, stale: u32)
    requires 1 <= |docs| <= BLOCK_SIZE && |docs| % 32 != 0
    requires VarintPair(enc, dec)
    requires IsP4Block(s, enc, Deltas(docs), w, excs, e)
    ensures P4Decode(dec, s, |docs|, stale)
         == if w <= 30 || AllExceptions(Deltas(docs), w) == [] then Some((docs, e)) else None
  {
    hide Deltas, Sums;
    P4DecodeBlock(enc, dec, s, Deltas(docs), w, excs, e, stale);
    SumsOfDeltas(docs, 0);
  }

  lemma P4DecodeBlock(enc: VarintEncoder, dec: VarintDecoder, s: seq<u8>, ds: seq<u32>,
                      w: nat, excs: seq<u32>, e: nat, stale: u32)
    requires 1 <= |ds| <= BLOCK_SIZE && |ds| % 32 != 0
    requires VarintPair(enc, dec)
    requires IsP4Block(s, enc, ds, w, excs, e)
    ensures P4Decode(dec, s, |ds|, stale)
         == if w <= 30 || AllExceptions(ds, w) == [] then Some((Sums(ds, 0), e)) else None
  {
    hide Walk, Patch, Sums, SlotBits, StreamSlot, EncodeAll, VarintPair, Restore, AsSigned, Forward, RowStarts;
    var xs := AllExceptions(ds, w);
    var slots := ReadSlots(s, w, |ds|);
    WalkFindsExceptions(slots, excs, ds, w);
    SlotsForward(s, w, |ds|);
    var q := 1 + PackedBytes(w, |ds|);
    if w <= 30 || xs == [] {
      PatchInvertsEncoding(slots, excs, ds, w, xs);
      ReadsRow(enc, dec, s, q, excs);
      RestoreReads(dec, slots, slots, slots[0], s, xs, excs, RowStarts(enc, q, excs));
    } else {
      RestoreVisits(dec, slots, slots, slots[0], s, q);
    }
  }

  // Every header is decoded, those that are no width up to 31 as 32: where slot 0 leads past
  // the list, to the running totals of the slots after it.
  lemma P4DecodeUnchained(dec: VarintDecoder, s: seq<u8>, n: nat, stale: u32)
    requires |s| >= 1
    requires var w := if s[0] == 0 || s[0] > 31 then 32 else s[0] as int; 1 + (w * (n + 1) + 7) / 8 <= |s|
    ensures var w := if s[0] == 0 || s[0] > 31 then 32 else s[0] as int;
      && 1 + PackedBytes(w, n) <= |s|
      && var slots := P4Slots(s, w, n, stale);
         n < slots[0] < 0x8000_0000 ==>
           P4Decode(dec, s, n, stale) == Some((Sums(slots[1..], 0), 1 + (s[0] * (n + 1) + 7) / 8))
  {
    hide PackedBytes, Sums, P4Slots;
    var w := UnpackedWidth(s[0]);
    PackedBytesProduct(w, n);
    PackedBytesProduct(s[0], n);
    var slots := P4Slots(s, w, n, stale);
    if n < slots[0] < 0x8000_0000 { RestoreStops(dec, slots, slots[0], s, 1 + PackedBytes(s[0], n)); }
  }

  // For a multiple of 32 the last slot is never unpacked: what the output array held there
  // can make the result wrong.
  lemma MultipleOf32Fails(enc: VarintEncoder, dec: VarintDecoder, s: seq<u8>, docs: seq<u32>,
                          w: nat, excs: seq<u32>, e: nat)
    requires 1 <= |docs| <= BLOCK_SIZE && |docs| % 32 == 0
    requires IsP4Block(s, enc, Deltas(docs), w, excs, e)
    ensures P4Decode(dec, s, |docs|, 0x8000_0000) != Some((docs, e))
  {
    hide Deltas, Sums, SlotBits, StreamSlot, EncodeAll, Holds, Walk, Restore, AsSigned;
    var ds, n := Deltas(docs), |docs|;
    var slots := P4Slots(s, w, n, 0x8000_0000);
    SlotsForward(s, w, n);
    RestoreVisits(dec, slots, slots, slots[0], s, 1 + PackedBytes(w, n));
    var r := Restore(dec, slots, AsSigned(slots[0]), s, 1 + PackedBytes(w, n));
    if r.Some? {
      LastSlotWrong(s, ds, w, excs, slots, Walk(slots, slots[0]).value, r.value.0);
      DifferentSums(r.value.0[1..], docs);
    }
  }

  lemma DifferentSums(ps: seq<u32>, docs: seq<u32>)
    requires ps != Deltas(docs)
    ensures Sums(ps, 0) != docs
  {
    DeltasOfSums(ps);
  }

  // With the stale value 2^31 in the last slot the walk either leaves the list through that
  // slot, or passes it by, and then its wrong difference stays in place.
  lemma LastSlotWrong(s: seq<u8>, ds: seq<u32>, w: nat, excs: seq<u32>,
                      slots: seq<u32>, xs: seq<nat>, all: seq<u32>)
    requires 1 <= |ds| <= BLOCK_SIZE && |ds| % 32 == 0 && 1 <= w <= 31 && 1 + PackedBytes(w, |ds|) <= |s|
    requires slots == P4Slots(s, w, |ds|, 0x8000_0000)
    requires Holds(ReadSlots(s, w, |ds|), excs, ds, AllExceptions(ds, w), |ds|, EndMark(AllExceptions(ds, w), w))
    requires Walk(slots, slots[0]) == Some(xs)
    requires |all| == |slots| && forall k :: 0 <= k < |slots| && k !in xs ==> all[k] == slots[k]
    ensures all[1..] != ds
  {
    hide Holds, ReadSlots, Exceptions, Walk;
    var n := |ds|;
    WalkSkipsLeaving(slots, slots[0], n);
    assert all[1..][n - 1] == 0x8000_0000;
    LastIsVisited(s, ds, w, excs, slots, xs);
  }

  lemma {:induction false} WalkSkipsLeaving(slots: seq<u32>, shift: nat, n: nat)
    requires n < |slots| && slots[n] >= 0x8000_0000
    ensures Walk(slots, shift).Some? ==> n !in Walk(slots, shift).value
    decreases |slots| - shift
  {
    if shift < |slots| && shift < 0x8000_0000 { WalkSkipsLeaving(slots, shift + slots[shift] + 1, n); }
  }

  // A last difference of 2^31 is an exception, so the chain runs through slot n.
  lemma LastIsVisited(s: seq<u8>, ds: seq<u32>, w: nat, excs: seq<u32>, slots: seq<u32>, xs: seq<nat>)
    requires 1 <= |ds| <= BLOCK_SIZE && |ds| % 32 == 0 && 1 <= w <= 31 && 1 + PackedBytes(w, |ds|) <= |s|
    requires slots == P4Slots(s, w, |ds|, 0x8000_0000)
    requires Holds(ReadSlots(s, w, |ds|), excs, ds, AllExceptions(ds, w), |ds|, EndMark(AllExceptions(ds, w), w))
    requires Walk(slots, slots[0]) == Some(xs)
    ensures ds[|ds| - 1] == 0x8000_0000 ==> |ds| in xs
  {
    hide ReadSlots, Walk, Exceptions;
    var n, ys := |ds|, AllExceptions(ds, w);
    if ds[n - 1] == 0x8000_0000 {
      Pow2Values();
      Pow2Monotone(w, 31);
      ExceptionsShape(ds, w, n);
      LastIsException(ds, w);
      var m := EndMark(ys, w);
      forall i | 0 <= i < |ys| - 1 ensures slots[ys[i]] + ys[i] + 1 == ys[i + 1] {
        assert ys[i] < n;
        assert Link(ys, i, m) == ys[i + 1] - ys[i] - 1;
      }
      WalkReaches(slots, ys, 0, n);
    }
  }

  lemma LastIsException(ds: seq<u32>, w: nat)
    requires ds != [] && ds[|ds| - 1] > MaxEntry(w)
    ensures LastOf(AllExceptions(ds, w)) == |ds|
  {
  }

  lemma {:induction false} WalkReaches(slots: seq<u32>, ys: seq<nat>, i: nat, n: nat)
    requires i < |ys| && ys[|ys| - 1] == n && n < |slots| <= BLOCK_SIZE + 1
    requires forall k :: 0 <= k < |ys| ==> ys[k] <= n
    requires forall k :: 0 <= k < |ys| - 1 ==> slots[ys[k]] + ys[k] + 1 == ys[k + 1]
    ensures Walk(slots, ys[i]).Some? ==> n in Walk(slots, ys[i]).value
    decreases |ys| - i
  {
    if i + 1 < |ys| { WalkReaches(slots, ys, i + 1, n); }
  }

  // Whatever the output array held before, decoding restores the list exactly when its
  // length is not a multiple of 32, and its width is at most 30 or it has no exceptions.
  lemma P4DecodeAnyMemory(enc: VarintEncoder, dec: VarintDecoder, s: seq<u8>, docs: seq<u32>,
                          w: nat, excs: seq<u32>, e: nat)
    requires 1 <= |docs| <= BLOCK_SIZE
    requires VarintPair(enc, dec)
    requires IsP4Block(s, enc, Deltas(docs), w, excs, e)
    ensures (forall stale: u32 :: P4Decode(dec, s, |docs|, stale) == Some((docs, e)))
       <==> |docs| % 32 != 0 && (w <= 30 || AllExceptions(Deltas(docs), w) == [])
  {
    assert |s| >= 1;
    hide P4Decode, IsP4Block, VarintPair, AllExceptions;
    if |docs| % 32 == 0 {
      MultipleOf32Fails(enc, dec, s, docs, w, excs, e);
    } else {
      forall stale: u32
        ensures P4Decode(dec, s, |docs|, stale)
             == if w <= 30 || AllExceptions(Deltas(docs), w) == [] then Some((docs, e)) else None
      {
        P4DecodeInverts(enc, dec, s, docs, w, excs, e, stale);
      }
      if !(w <= 30 || AllExceptions(Deltas(docs), w) == []) {
        assert P4Decode(dec, s, |docs|, 0) == None;
      }
    }
  }

  // ---- steps of the encoder

  // A prefix of the list has no more exceptions than the whole.
  lemma {:induction false} FewerExceptions(ds: seq<u32>, w: nat, j: nat, n: nat)
    requires j <= n <= |ds|
    ensures |Exceptions(ds, w, j)| <= |Exceptions(ds, w, n)|
    decreases n - j
  {
    if j < n { FewerExceptions(ds, w, j, n - 1); }
  }

  // The documented buffer of 8 bytes per slot holds the block, whatever is encoded.
  lemma P4BlockFits(ds: seq<u32>)
    requires 1 <= |ds| <= BLOCK_SIZE && BitSize(ds) <= 31
    ensures 1 + PackedBytes(BitSize(ds), |ds|) + 5 * |AllExceptions(ds, BitSize(ds))| <= 8 * (|ds| + 1)
    ensures WordsEnd(1, BitSize(ds), |ds|) <= 8 * (|ds| + 1)
  {
    BlockFits(ds);
    WordsUpTo31(BitSize(ds), |ds|);
  }

  lemma WordsUpTo31(w: nat, n: nat)
    requires 1 <= w <= 31 && n >= 1
    ensures WordsEnd(1, w, n) <= 8 * (n + 1)
  {
    SlotBitsProduct(w, n + 1);
    MulMonotone(w, 31, n + 1);
  }

  lemma P4Empty(s: seq<u8>, enc: VarintEncoder, ds: seq<u32>, w: nat)
    requires 1 <= w <= 31 && 1 + PackedBytes(w, |ds|) <= |s|
    requires s[0] == w && forall b :: 1 <= b < 1 + PackedBytes(w, |ds|) ==> s[b] == 0
    ensures PartialP4(s, enc, ds, w, [], [], 0, 0, 1 + PackedBytes(w, |ds|))
  {
    hide SlotBits, PackedBytes, StreamSlot;
    ZeroSlots(s, w, |ds|);
    HoldsNothing(ReadSlots(s, w, |ds|), ds);
  }

  lemma P4OpenSlotFits(s: seq<u8>, enc: VarintEncoder, ds: seq<u32>, w: nat,
                       xs: seq<nat>, excs: seq<u32>, j: nat, e: nat)
    requires j <= |ds| && xs == Exceptions(ds, w, j)
    requires PartialP4(s, enc, ds, w, xs, excs, j, 0, e)
    ensures OpenSlot(xs) <= j && 0 <= j - LastOf(xs) < Pow2(w) && |excs| == |xs|
  {
    hide Exceptions, EncodeAll;
    ExceptionsShape(ds, w, j);
    OpenSlotIsEmpty(ReadSlots(s, w, |ds|), excs, ds, xs, j);
  }

  // Writing an empty slot leaves the exception bytes alone.
  lemma P4SlotWritten(s: seq<u8>, s': seq<u8>, w: nat, n: nat, k: nat, data: u32, bytes: seq<u8>)
    requires 1 <= w <= 31 && k <= n && HasAt(s, 1 + PackedBytes(w, n), bytes)
    requires data < Pow2(w) && ReadSlots(s, w, n)[k] == 0
    requires OredAt(s, s', 8 + SlotBits(w, k), w, data)
    ensures |s'| == |s| && s'[0] == s[0]
    ensures ReadSlots(s', w, n) == ReadSlots(s, w, n)[k := data]
    ensures HasAt(s', 1 + PackedBytes(w, n), bytes)
  {
    hide Pow2, SlotBits, PackedBytes, ReadSlots, OredAt;
    SlotWritten(s, s', w, n, k, data, 0);
    var q := 1 + PackedBytes(w, n);
    assert s'[q..q + |bytes|] == s'[q..][..|bytes|] == s[q..][..|bytes|] == s[q..q + |bytes|];
  }

  lemma P4NormalWritten(s: seq<u8>, s': seq<u8>, enc: VarintEncoder, ds: seq<u32>, w: nat,
                        xs: seq<nat>, excs: seq<u32>, j: nat, e: nat)
    requires j < |ds| && PartialP4(s, enc, ds, w, xs, excs, j, 0, e)
    requires ds[j] < Pow2(w)
    requires OredAt(s, s', 8 + SlotBits(w, j + 1), w, ds[j])
    ensures PartialP4(s', enc, ds, w, xs, excs, j + 1, 0, e)
  {
    hide Pow2, SlotBits, PackedBytes, StreamSlot, Holds, OredAt, EncodeAll, HasAt;
    HoldsNormal(ReadSlots(s, w, |ds|), excs, ds, xs, j);
    P4SlotWritten(s, s', w, |ds|, j + 1, ds[j], EncodeAll(enc, excs));
  }

  // The link goes into the open slot, giving s', and the integer's bytes are put at e.
  lemma P4ExceptionWritten(s: seq<u8>, s': seq<u8>, s'': seq<u8>, enc: VarintEncoder, ds: seq<u32>,
                           w: nat, xs: seq<nat>, excs: seq<u32>, j: nat, e: nat)
    requires j < |ds| <= BLOCK_SIZE && xs == Exceptions(ds, w, j)
    requires PartialP4(s, enc, ds, w, xs, excs, j, 0, e)
    requires 0 <= j - LastOf(xs) < Pow2(w) && OpenSlot(xs) <= j
    requires OredAt(s, s', 8 + SlotBits(w, OpenSlot(xs)), w, j - LastOf(xs))
    requires |s''| == |s| == |s'| && e <= |s| && s''[..e] == s'[..e] && HasAt(s'', e, enc(ds[j]))
    ensures PartialP4(s'', enc, ds, w, xs + [j + 1], excs + [ds[j]], j + 1, 0, e + |enc(ds[j])|)
  {
    hide Pow2, SlotBits, PackedBytes, StreamSlot, Holds, OredAt, Exceptions, OpenSlot, EncodeAll, HasAt;
    ExceptionsShape(ds, w, j);
    HoldsException(ReadSlots(s, w, |ds|), excs, ds, xs, j);
    P4SlotWritten(s, s', w, |ds|, OpenSlot(xs), j - LastOf(xs), EncodeAll(enc, excs));
    IntegerBehind(s', s'', enc, w, |ds|, excs, ds[j], e);
  }

  // The integer's bytes leave the width and the slots alone.
  lemma IntegerBehind(s: seq<u8>, s': seq<u8>, enc: VarintEncoder, w: nat, n: nat, excs: seq<u32>, v: u32, e: nat)
    requires 1 <= w <= 31 && HasAt(s, 1 + PackedBytes(w, n), EncodeAll(enc, excs))
    requires e == 1 + PackedBytes(w, n) + |EncodeAll(enc, excs)|
    requires |s'| == |s| && s'[..e] == s[..e] && HasAt(s', e, enc(v))
    ensures 1 + PackedBytes(w, n) <= |s'| && s'[0] == s[0] && ReadSlots(s', w, n) == ReadSlots(s, w, n)
    ensures HasAt(s', 1 + PackedBytes(w, n), EncodeAll(enc, excs + [v]))
    ensures e + |enc(v)| == 1 + PackedBytes(w, n) + |EncodeAll(enc, excs + [v])|
  {
    hide PackedBytes, ReadSlots, EncodeAll;
    var q := 1 + PackedBytes(w, n);
    assert s'[..q] == s'[..e][..q] == s[..e][..q] == s[..q];
    SlotsOfSameBytes(s', s, w, n);
    VarintAppended(s, s', enc, excs, v, q, e);
    assert s'[0] == s'[..e][0] == s[..e][0] == s[0];
  }

  lemma VarintAppended(s: seq<u8>, s': seq<u8>, enc: VarintEncoder, excs: seq<u32>, v: u32, q: nat, e: nat)
    requires HasAt(s, q, EncodeAll(enc, excs)) && e == q + |EncodeAll(enc, excs)|
    requires |s'| == |s| && s'[..e] == s[..e] && HasAt(s', e, enc(v))
    ensures HasAt(s', q, EncodeAll(enc, excs + [v])) && e + |enc(v)| == q + |EncodeAll(enc, excs + [v])|
  {
    hide EncodeAll;
    EncodeOneMore(enc, excs, v);
    assert s'[q..e] == s'[..e][q..] == s[..e][q..] == s[q..e];
    assert s'[q..e + |enc(v)|] == s'[q..e] + s'[e..e + |enc(v)|];
  }

  lemma EncodeOneMore(enc: VarintEncoder, excs: seq<u32>, v: u32)
    ensures EncodeAll(enc, excs + [v]) == EncodeAll(enc, excs) + enc(v)
  {
    assert (excs + [v])[..|excs|] == excs;
  }

  lemma P4EndWritten(s: seq<u8>, s': seq<u8>, enc: VarintEncoder, ds: seq<u32>, w: nat,
                     xs: seq<nat>, excs: seq<u32>, e: nat)
    requires 1 <= |ds| <= BLOCK_SIZE && xs == AllExceptions(ds, w)
    requires PartialP4(s, enc, ds, w, xs, excs, |ds|, 0, e)
    requires EndMark(xs, w) < Pow2(w) <= 0x8000_0000 && OpenSlot(xs) <= |ds|
    requires OredAt(s, s', 8 + SlotBits(w, OpenSlot(xs)), w, EndMark(xs, w))
    ensures IsP4Block(s', enc, ds, w, excs, e)
  {
    hide Pow2, SlotBits, PackedBytes, StreamSlot, Holds, OredAt, Exceptions, OpenSlot, EncodeAll, HasAt;
    ExceptionsShape(ds, w, |ds|);
    HoldsClosed(ReadSlots(s, w, |ds|), excs, ds, xs, EndMark(xs, w));
    P4SlotWritten(s, s', w, |ds|, OpenSlot(xs), EndMark(xs, w), EncodeAll(enc, excs));
  }
}
