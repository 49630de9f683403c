// A compressed block as bytes: the width, the packed slots, the exceptions.

module BlockFormat {
  import opened Bits
  import opened ByteStream
  import opened DeltaCoding
  import opened ExceptionChain

  // ceil(w * (n + 1) / 8): the bytes that n + 1 slots of w bits take
  function PackedBytes(w: nat, n: nat): nat {
    (SlotBits(w, n + 1) + 7) / 8
  }

  lemma PackedBytesProduct(w: nat, n: nat)
    ensures PackedBytes(w, n) == (w * (n + 1) + 7) / 8
    ensures SlotBits(w, 0) == 0
  {
    SlotBitsProduct(w, n + 1);
  }

  lemma SlotInside(w: nat, n: nat, k: nat)
    requires k <= n
    ensures SlotBits(w, k) + w == SlotBits(w, k + 1) <= SlotBits(w, n + 1) <= 8 * PackedBytes(w, n)
  {
    SlotBitsMonotone(w, k + 1, n + 1);
  }

  lemma SlotsApart(w: nat, k: nat, m: nat)
    requires k < m
    ensures SlotBits(w, k) + w <= SlotBits(w, m)
  {
    SlotBitsMonotone(w, k + 1, m);
  }

  // Slot k of a block of n differences, after the width byte
  function SlotAt(s: seq<u8>, w: nat, n: nat, k: nat): u32
    requires 1 <= w <= 32 && k <= n && 1 + PackedBytes(w, n) <= |s|
  {
    StreamSlot(s, 1, w, k)
  }

  function ReadSlots(s: seq<u8>, w: nat, n: nat): (slots: seq<u32>)
    requires 1 <= w <= 32 && 1 + PackedBytes(w, n) <= |s|
    ensures |slots| == n + 1
  {
    seq(n + 1, k requires 0 <= k <= n => SlotAt(s, w, n, k))
  }

  // c exceptions of four bytes each from byte q on
  function ReadWords(s: seq<u8>, q: nat, c: nat): (vs: seq<u32>)
    requires q + 4 * c <= |s|
    ensures |vs| == c
  {
    seq(c, i requires 0 <= i < c => WordAt(s, q + 4 * i))
  }

  // ---- writing a value into an empty slot

  // data << p has been or-ed into the buffer: w bits from bit p on, no others.
  ghost predicate OredAt(s: seq<u8>, s': seq<u8>, p: nat, w: nat, data: nat) {
    && |s'| == |s|
    && forall b: nat :: b < 8 * |s| ==>
         StreamBit(s', b) == (StreamBit(s, b) || (p <= b < p + w && Bit(data, b - p)))
  }

  lemma OredIntoSlot(s: seq<u8>, s': seq<u8>, w: nat, n: nat, k: nat, data: u32)
    requires 1 <= w <= 32 && k <= n && 1 + PackedBytes(w, n) <= |s|
    requires data < Pow2(w)
    requires OredAt(s, s', 8 + SlotBits(w, k), w, data)
    requires SlotAt(s, w, n, k) == 0
    ensures ReadSlots(s', w, n) == ReadSlots(s, w, n)[k := data]
  {
    OredSlot(s, s', w, n, k, data);
    forall m | 0 <= m <= n && m != k ensures SlotAt(s', w, n, m) == SlotAt(s, w, n, m) {
      OredOtherSlot(s, s', w, n, k, data, m);
    }
  }

  lemma OredSlot(s: seq<u8>, s': seq<u8>, w: nat, n: nat, k: nat, data: u32)
    requires 1 <= w <= 32 && k <= n && 1 + PackedBytes(w, n) <= |s|
    requires data < Pow2(w)
    requires OredAt(s, s', 8 + SlotBits(w, k), w, data)
    requires SlotAt(s, w, n, k) == 0
    ensures SlotAt(s', w, n, k) == data
  {
    hide Bit, SlotBits, PackedBytes, Pow2;
    SlotInside(w, n, k);
    var p := 8 + SlotBits(w, k);
    forall i | 0 <= i < w ensures StreamBit(s', p + i) == Bit(data, i) {
      FieldBits(s, p, w, i);
      BitOfZero(i);
    }
    FieldFromBits(s', p, w, data);
  }

  lemma OredOtherSlot(s: seq<u8>, s': seq<u8>, w: nat, n: nat, k: nat, data: u32, m: nat)
    requires 1 <= w <= 32 && k <= n && m <= n && m != k && 1 + PackedBytes(w, n) <= |s|
    requires OredAt(s, s', 8 + SlotBits(w, k), w, data)
    ensures SlotAt(s', w, n, m) == SlotAt(s, w, n, m)
  {
    hide Bit, SlotBits, Field, PackedBytes;
    SlotInside(w, n, m);
    if m < k { SlotsApart(w, m, k); } else { SlotsApart(w, k, m); }
    OredElsewhere(s, s', 8 + SlotBits(w, k), w, data, 8 + SlotBits(w, m));
  }

  lemma OredElsewhere(s: seq<u8>, s': seq<u8>, p: nat, w: nat, data: u32, m: nat)
    requires OredAt(s, s', p, w, data)
    requires m + w <= 8 * |s| && (m + w <= p || p + w <= m)
    ensures Field(s', m, w) == Field(s, m, w)
  {
    SameField(s', m, s, m, w);
  }

  // Bytes without a bit of the slot are untouched, whatever word they share with it.
  lemma OredLeavesByte(s: seq<u8>, s': seq<u8>, p: nat, w: nat, data: nat, b: nat)
    requires OredAt(s, s', p, w, data) && b < |s|
    requires 8 * b + 8 <= p || p + w <= 8 * b
    ensures s'[b] == s[b]
  {
    Pow2Values();
    forall i | 0 <= i < 8 ensures Bit(s'[b], i) == Bit(s[b], i) {
      assert StreamBit(s', 8 * b + i) == StreamBit(s, 8 * b + i);
    }
    SameBits(s'[b], s[b], 8);
  }

  // Writing a slot touches neither the width byte nor the exceptions.
  lemma OredLeavesRest(s: seq<u8>, s': seq<u8>, w: nat, n: nat, k: nat, data: nat)
    requires k <= n && 1 + PackedBytes(w, n) <= |s|
    requires OredAt(s, s', 8 + SlotBits(w, k), w, data)
    ensures |s'| == |s| && s'[0] == s[0]
    ensures s'[1 + PackedBytes(w, n)..] == s[1 + PackedBytes(w, n)..]
  {
    SlotInside(w, n, k);
    OredLeavesByte(s, s', 8 + SlotBits(w, k), w, data, 0);
    forall b | 1 + PackedBytes(w, n) <= b < |s| ensures s'[b] == s[b] {
      OredLeavesByte(s, s', 8 + SlotBits(w, k), w, data, b);
    }
  }

  // Slots depend on the packed bytes only.
  lemma SlotsOfSameBytes(s: seq<u8>, s': seq<u8>, w: nat, n: nat)
    requires 1 <= w <= 32 && 1 + PackedBytes(w, n) <= |s| && 1 + PackedBytes(w, n) <= |s'|
    requires s[..1 + PackedBytes(w, n)] == s'[..1 + PackedBytes(w, n)]
    ensures ReadSlots(s, w, n) == ReadSlots(s', w, n)
  {
    forall k | 0 <= k <= n ensures SlotAt(s, w, n, k) == SlotAt(s', w, n, k) {
      SlotOfSameBytes(s, s', w, n, k);
    }
  }

  lemma SlotOfSameBytes(s: seq<u8>, s': seq<u8>, w: nat, n: nat, k: nat)
    requires 1 <= w <= 32 && k <= n && 1 + PackedBytes(w, n) <= |s| && 1 + PackedBytes(w, n) <= |s'|
    requires s[..1 + PackedBytes(w, n)] == s'[..1 + PackedBytes(w, n)]
    ensures SlotAt(s, w, n, k) == SlotAt(s', w, n, k)
  {
    hide Field, SlotBits, PackedBytes, StreamSlot, Pow2;
    SlotInside(w, n, k);
    SlotField(s, 1, w, k);
    SlotField(s', 1, w, k);
    FieldOfSameBytes(s, s', 1 + PackedBytes(w, n), 8 + SlotBits(w, k), w);
  }

  lemma FieldOfSameBytes(s: seq<u8>, s': seq<u8>, e: nat, p: nat, w: nat)
    requires e <= |s| && e <= |s'| && s[..e] == s'[..e]
    requires p + w <= 8 * e
    ensures Field(s, p, w) == Field(s', p, w)
  {
    forall j | p <= j < p + w ensures StreamBit(s, j) == StreamBit(s', j) {
      assert s[..e][j / 8] == s'[..e][j / 8];
    }
    SameField(s, p, s', p, w);
  }

  lemma WordsOfSameBytes(s: seq<u8>, s': seq<u8>, q: nat, c: nat)
    requires q + 4 * c <= |s| && q + 4 * c <= |s'|
    requires s[q..q + 4 * c] == s'[q..q + 4 * c]
    ensures ReadWords(s, q, c) == ReadWords(s', q, c)
  {
    forall b | q <= b < q + 4 * c ensures s[b] == s'[b] {
      assert s[q..q + 4 * c][b - q] == s'[q..q + 4 * c][b - q];
    }
  }

  lemma ZeroSlots(s: seq<u8>, w: nat, n: nat)
    requires 1 <= w <= 32 && 1 + PackedBytes(w, n) <= |s|
    requires forall b :: 1 <= b < 1 + PackedBytes(w, n) ==> s[b] == 0
    ensures forall k :: 0 <= k <= n ==> ReadSlots(s, w, n)[k] == 0
  {
    hide Field, SlotBits, PackedBytes;
    forall k | 0 <= k <= n ensures SlotAt(s, w, n, k) == 0 {
      SlotInside(w, n, k);
      FieldOfZeros(s, 1 + PackedBytes(w, n), 8 + SlotBits(w, k), w);
    }
  }

  lemma {:induction false} FieldOfZeros(s: seq<u8>, e: nat, p: nat, w: nat)
    requires e <= |s| && 8 <= p && p + w <= 8 * e
    requires forall b :: 1 <= b < e ==> s[b] == 0
    ensures Field(s, p, w) == 0
    decreases w
  {
    if w > 0 {
      assert s[p / 8] == 0;
      BitOfZero(p % 8);
      FieldOfZeros(s, e, p + 1, w - 1);
    }
  }

  lemma SlotField(s: seq<u8>, entry: nat, w: nat, k: nat)
    requires 1 <= w <= 32 && 8 * entry + SlotBits(w, k) + w <= 8 * |s|
    ensures StreamSlot(s, entry, w, k) == Field(s, 8 * entry + SlotBits(w, k), w)
  {
  }

  // Slots copied to the start of another buffer are read the same there.
  lemma CopiedSlot(s: seq<u8>, copy: seq<u8>, w: nat, n: nat, k: nat)
    requires 1 <= w <= 32 && k <= n && 1 + PackedBytes(w, n) <= |s| && PackedBytes(w, n) <= |copy|
    requires forall b :: 0 <= b < PackedBytes(w, n) ==> copy[b] == s[b + 1]
    ensures StreamSlot(copy, 0, w, k) == SlotAt(s, w, n, k)
  {
    hide Field, SlotBits, PackedBytes, StreamSlot, Pow2;
    SlotInside(w, n, k);
    SlotField(s, 1, w, k);
    SlotField(copy, 0, w, k);
    CopiedField(s, copy, PackedBytes(w, n), SlotBits(w, k), w);
  }

  lemma CopiedField(s: seq<u8>, copy: seq<u8>, e: nat, p: nat, w: nat)
    requires 1 + e <= |s| && e <= |copy| && p + w <= 8 * e
    requires forall b :: 0 <= b < e ==> copy[b] == s[b + 1]
    ensures Field(copy, p, w) == Field(s, 8 + p, w)
  {
    forall j | p <= j < p + w ensures StreamBit(copy, j) == StreamBit(s, 8 + p + (j - p)) {
      assert copy[j / 8] == s[j / 8 + 1];
    }
    SameField(copy, p, s, 8 + p, w);
  }

  // Appending an exception: the word is read back and nothing before it moves.
  lemma WordAppended(s: seq<u8>, q: nat, c: nat, v: u32)
    requires q + 4 * c + 4 <= |s|
    ensures PutWord(s, q + 4 * c, v)[..q + 4 * c] == s[..q + 4 * c]
    ensures ReadWords(PutWord(s, q + 4 * c, v), q, c + 1) == ReadWords(s, q, c) + [v]
  {
    hide Bit, ByteOf;
    var s' := PutWord(s, q + 4 * c, v);
    assert s'[..q + 4 * c] == s[..q + 4 * c];
    forall i | 0 <= i < 32 ensures StreamBit(s', 8 * (q + 4 * c) + i) == Bit(v, i) {
      PutWordBits(s, q + 4 * c, v, 8 * (q + 4 * c) + i);
    }
    WordFromBits(s', q + 4 * c, v);
  }

  // What the encoder's loop maintains: the width byte, and the first j differences held in
  // the slots and the exception area.
  ghost predicate PartialBlock(s: seq<u8>, ds: seq<u32>, w: nat, xs: seq<nat>, j: nat, end: nat) {
    && 1 <= w <= 31
    && 1 + PackedBytes(w, |ds|) + 4 * |xs| <= |s|
    && s[0] == w
    && Holds(ReadSlots(s, w, |ds|), ReadWords(s, 1 + PackedBytes(w, |ds|), |xs|), ds, xs, j, end)
  }

  // Effect of writing a slot on what is read back
  lemma SlotWritten(s: seq<u8>, s': seq<u8>, w: nat, n: nat, k: nat, data: u32, c: nat)
    requires 1 <= w <= 31 && k <= n && 1 + PackedBytes(w, n) + 4 * c <= |s|
    requires data < Pow2(w) && ReadSlots(s, w, n)[k] == 0
    requires OredAt(s, s', 8 + SlotBits(w, k), w, data)
    ensures |s'| == |s| && s'[0] == s[0]
    ensures s'[1 + PackedBytes(w, n)..] == s[1 + PackedBytes(w, n)..]
    ensures ReadSlots(s', w, n) == ReadSlots(s, w, n)[k := data]
    ensures ReadWords(s', 1 + PackedBytes(w, n), c) == ReadWords(s, 1 + PackedBytes(w, n), c)
  {
    OredIntoSlot(s, s', w, n, k, data);
    OredLeavesRest(s, s', w, n, k, data);
    var q := 1 + PackedBytes(w, n);
    assert s'[q..q + 4 * c] == s'[q..][..4 * c] == s[q..][..4 * c] == s[q..q + 4 * c];
    WordsOfSameBytes(s, s', q, c);
  }

  // Effect of appending an exception on what is read back
  lemma ExceptionAppended(s: seq<u8>, w: nat, n: nat, c: nat, v: u32)
    requires 1 <= w <= 31 && 1 + PackedBytes(w, n) + 4 * c + 4 <= |s|
    ensures var q := 1 + PackedBytes(w, n);
      var s' := PutWord(s, q + 4 * c, v);
      && s'[0] == s[0]
      && ReadSlots(s', w, n) == ReadSlots(s, w, n)
      && ReadWords(s', q, c + 1) == ReadWords(s, q, c) + [v]
  {
    var q := 1 + PackedBytes(w, n);
    var s' := PutWord(s, q + 4 * c, v);
    WordAppended(s, q, c, v);
    assert s'[..q] == s'[..q + 4 * c][..q] == s[..q + 4 * c][..q] == s[..q];
    SlotsOfSameBytes(s, s', w, n);
  }

  // ---- the bits past the slots

  // The bits of the last packed byte that belong to no slot are zero.
  ghost predicate PadClear(s: seq<u8>, w: nat, n: nat) {
    forall p :: 8 + SlotBits(w, n + 1) <= p < 8 * (1 + PackedBytes(w, n)) && p < 8 * |s| ==> !StreamBit(s, p)
  }

  // So are they, and all bytes from e on.
  ghost predicate RestClear(s: seq<u8>, w: nat, n: nat, e: nat) {
    PadClear(s, w, n) && forall b :: e <= b < |s| ==> s[b] == 0
  }

  lemma PadAfterSlot(s: seq<u8>, s': seq<u8>, w: nat, n: nat, k: nat, data: nat)
    requires k <= n && PadClear(s, w, n) && OredAt(s, s', 8 + SlotBits(w, k), w, data)
    ensures PadClear(s', w, n)
  {
    hide PackedBytes, StreamBit, Bit;
    SlotInside(w, n, k);
  }

  lemma RestAfterSlot(s: seq<u8>, s': seq<u8>, w: nat, n: nat, e: nat, k: nat, data: nat)
    requires k <= n && 1 + PackedBytes(w, n) <= e <= |s| && RestClear(s, w, n, e)
    requires OredAt(s, s', 8 + SlotBits(w, k), w, data)
    ensures |s'| == |s| && RestClear(s', w, n, e)
  {
    hide PackedBytes, OredAt, SlotBits, PadClear;
    PadAfterSlot(s, s', w, n, k, data);
    OredLeavesRest(s, s', w, n, k, data);
    var q := 1 + PackedBytes(w, n);
    forall b | e <= b < |s'| ensures s'[b] == 0 { assert s'[b] == s'[q..][b - q] == s[q..][b - q]; }
  }

  lemma RestAfterWord(s: seq<u8>, w: nat, n: nat, e: nat, v: u32)
    requires 1 + PackedBytes(w, n) <= e && e + 4 <= |s| && RestClear(s, w, n, e)
    ensures RestClear(PutWord(s, e, v), w, n, e + 4)
  {
    hide PackedBytes, ByteOf, Bit, SlotBits;
    PadOfSameBytes(s, PutWord(s, e, v), w, n, e);
  }

  lemma PadOfSameBytes(s: seq<u8>, s': seq<u8>, w: nat, n: nat, e: nat)
    requires 1 + PackedBytes(w, n) <= e <= |s| && e <= |s'| && s'[..e] == s[..e] && PadClear(s, w, n)
    ensures PadClear(s', w, n)
  {
    hide PackedBytes, SlotBits, Bit;
    forall p | 8 + SlotBits(w, n + 1) <= p < 8 * (1 + PackedBytes(w, n)) && p < 8 * |s'|
      ensures !StreamBit(s', p)
    {
      assert s'[p / 8] == s'[..e][p / 8] == s[..e][p / 8] == s[p / 8];
      assert !StreamBit(s, p);
    }
  }

  lemma PadOfZeros(s: seq<u8>, w: nat, n: nat)
    requires 1 + PackedBytes(w, n) <= |s| && forall b :: 1 <= b < 1 + PackedBytes(w, n) ==> s[b] == 0
    ensures PadClear(s, w, n)
  {
    hide PackedBytes, SlotBits, Bit;
    forall p | 8 + SlotBits(w, n + 1) <= p < 8 * (1 + PackedBytes(w, n)) ensures !StreamBit(s, p) {
      BitOfZero(p % 8);
    }
  }

  // ---- blocks

  // The first bytes of s are the block of the differences ds at width w.
  ghost predicate IsBlock(s: seq<u8>, ds: seq<u32>, w: nat) {
    var xs := AllExceptions(ds, w);
    PartialBlock(s, ds, w, xs, |ds|, EndMark(xs, w))
  }

  function BlockLength(ds: seq<u32>, w: nat): nat {
    1 + PackedBytes(w, |ds|) + 4 * |AllExceptions(ds, w)|
  }

  // An exception is one word.
  function ReadWord(s: seq<u8>, e: nat): (u32, nat) {
    if e + 4 <= |s| then (WordAt(s, e), e + 4) else (0, e)
  }

  // What decoding n values from the buffer yields, the running total starting at `last`:
  // None when the width is not one the decoder can unpack, or when it would read or write
  // outside the buffers.
  function Decode(s: seq<u8>, n: nat, last: u32): Option<seq<u32>>
    requires |s| >= 1
  {
    var w := s[0] as int;
    if !(1 <= w <= 32) || 1 + PackedBytes(w, n) > |s| then None
    else
      var slots := ReadSlots(s, w, n);
      match Restore(ReadWord, slots, AsSigned(slots[0]), s, 1 + PackedBytes(w, n))
      case None => None
      case Some((all, _)) => Some(Sums(all[1..], last))
  }

  lemma SlotsForward(s: seq<u8>, w: nat, n: nat)
    requires 1 <= w <= 31 && n <= BLOCK_SIZE && 1 + PackedBytes(w, n) <= |s|
    ensures Forward(ReadSlots(s, w, n)) && forall k :: 0 <= k <= n ==> ReadSlots(s, w, n)[k] < 0x8000_0000
  {
    hide PackedBytes, SlotBits, Pow2;
    Pow2Values();
    Pow2Monotone(w, 31);
  }

  lemma DecodeOfWalk(s: seq<u8>, n: nat, last: u32, w: nat, xs: seq<nat>, ds: seq<u32>)
    requires 1 <= w <= 31 && n <= BLOCK_SIZE && |s| >= 1 + PackedBytes(w, n) + 4 * |xs| && s[0] == w
    requires Walk(ReadSlots(s, w, n), ReadSlots(s, w, n)[0]) == Some(xs)
    requires forall i :: 0 <= i < |xs| ==> xs[i] < n + 1
    requires Patch(ReadSlots(s, w, n), xs, ReadWords(s, 1 + PackedBytes(w, n), |xs|))[1..] == ds
    ensures Decode(s, n, last) == Some(Sums(ds, last))
  {
    hide Restore, Walk, Patch, Sums, AsSigned, Forward, PackedBytes;
    var slots, q := ReadSlots(s, w, n), 1 + PackedBytes(w, n);
    var vs, es := ReadWords(s, q, |xs|), seq(|xs| + 1, i requires 0 <= i <= |xs| => q + 4 * i);
    SlotsForward(s, w, n);
    forall i | 0 <= i < |xs| ensures ReadsAt(ReadWord, s, vs, es, i) { assert es[i + 1] == es[i] + 4; }
    RestoreReads(ReadWord, slots, slots, slots[0], s, xs, vs, es);
  }

  // A walk that leaves the signed range decodes to nothing.
  lemma DecodeOfNoWalk(s: seq<u8>, n: nat, last: u32, w: nat)
    requires 1 <= w <= 31 && n <= BLOCK_SIZE && |s| >= 1 + PackedBytes(w, n) && s[0] == w
    requires Walk(ReadSlots(s, w, n), ReadSlots(s, w, n)[0]) == None
    ensures Decode(s, n, last) == None
  {
    hide Restore, Walk, Sums, AsSigned, Forward, PackedBytes;
    var slots := ReadSlots(s, w, n);
    SlotsForward(s, w, n);
    RestoreVisits(ReadWord, slots, slots, slots[0], s, 1 + PackedBytes(w, n));
  }

  // The round trip: a block decodes to the list it was made from, displaced by the running
  // total, exactly when its width is at most 30 or it has no exceptions.
  lemma DecodeInvertsEncode(s: seq<u8>, docs: seq<u32>, w: nat, last: u32)
    requires 1 <= |docs| <= BLOCK_SIZE
    requires IsBlock(s, Deltas(docs), w)
    ensures Decode(s, |docs|, last)
         == if w <= 30 || AllExceptions(Deltas(docs), w) == [] then Some(Shifted(docs, last)) else None
    ensures last == 0 ==> Shifted(docs, last) == docs
  {
    DecodeBlock(s, Deltas(docs), w, last);
    SumsOfDeltas(docs, last);
  }

  lemma DecodeBlock(s: seq<u8>, ds: seq<u32>, w: nat, last: u32)
    requires 1 <= |ds| <= BLOCK_SIZE
    requires IsBlock(s, ds, w)
    ensures Decode(s, |ds|, last)
         == if w <= 30 || AllExceptions(ds, w) == [] then Some(Sums(ds, last)) else None
  {
    hide Holds, Walk, Patch, Sums, SlotBits, StreamSlot, Decode;
    var xs := AllExceptions(ds, w);
    var slots := ReadSlots(s, w, |ds|);
    var excs := ReadWords(s, 1 + PackedBytes(w, |ds|), |xs|);
    WalkFindsExceptions(slots, excs, ds, w);
    if w <= 30 || xs == [] {
      PatchInvertsEncoding(slots, excs, ds, w, xs);
      DecodeOfWalk(s, |ds|, last, w, xs, ds);
    } else {
      DecodeOfNoWalk(s, |ds|, last, w);
    }
  }

  // The format in numbers: the width byte, the slots as above after it, and after them the
  // exceptions, four bytes each.
  lemma BlockInNumbers(s: seq<u8>, ds: seq<u32>, w: nat)
    requires 1 <= |ds| <= BLOCK_SIZE && IsBlock(s, ds, w)
    ensures 1 <= w <= 31 && s[0] == w && 1 + PackedBytes(w, |ds|) + 4 * |AllExceptions(ds, w)| <= |s|
    ensures PackedBytes(w, |ds|) == (w * (|ds| + 1) + 7) / 8
    ensures BlockLength(ds, w) == 1 + (w * (|ds| + 1) + 7) / 8 + 4 * |AllExceptions(ds, w)|
    ensures SlotsInNumbers(ReadSlots(s, w, |ds|), ds, AllExceptions(ds, w), w)
    ensures forall i :: 0 <= i < |AllExceptions(ds, w)| ==> 1 <= AllExceptions(ds, w)[i] <= |ds|
    ensures forall i :: 0 <= i < |AllExceptions(ds, w)| ==>
      WordAt(s, 1 + PackedBytes(w, |ds|) + 4 * i) == ds[AllExceptions(ds, w)[i] - 1]
  {
    hide PackedBytes, AllExceptions, WordAt, IsBlock, Encodes, ReadSlots, SlotsInNumbers;
    BlockEncodes(s, ds, w);
    PackedBytesProduct(w, |ds|);
    var q, xs := 1 + PackedBytes(w, |ds|), AllExceptions(ds, w);
    var excs := ReadWords(s, q, |xs|);
    HoldsInNumbers(ReadSlots(s, w, |ds|), excs, ds, w);
    forall i | 0 <= i < |xs| ensures WordAt(s, q + 4 * i) == ds[xs[i] - 1] { assert excs[i] == ds[xs[i] - 1]; }
  }

  lemma BlockEncodes(s: seq<u8>, ds: seq<u32>, w: nat)
    requires IsBlock(s, ds, w)
    ensures 1 <= w <= 31 && |s| >= 1 && s[0] == w && 1 + PackedBytes(w, |ds|) + 4 * |AllExceptions(ds, w)| <= |s|
    ensures Encodes(ReadSlots(s, w, |ds|), ReadWords(s, 1 + PackedBytes(w, |ds|), |AllExceptions(ds, w)|), ds, w)
  {
    hide PackedBytes, SlotBits, AllExceptions, WordAt, Pow2, StreamSlot, Holds;
  }

  // With the remaining bits clear, the bytes of a block are settled by the differences.
  lemma BlockIsSettled(a: seq<u8>, b: seq<u8>, ds: seq<u32>, w: nat)
    requires 1 <= |ds| <= BLOCK_SIZE && IsBlock(a, ds, w) && IsBlock(b, ds, w)
    requires PadClear(a, w, |ds|) && PadClear(b, w, |ds|)
    ensures BlockLength(ds, w) <= |a| && BlockLength(ds, w) <= |b|
    ensures a[..BlockLength(ds, w)] == b[..BlockLength(ds, w)]
  {
    hide IsBlock, PadClear, PackedBytes, AllExceptions, ReadSlots, WordAt, SlotsInNumbers, StreamBit;
    var n, xs := |ds|, AllExceptions(ds, w);
    var q := 1 + PackedBytes(w, n);
    BlockInNumbers(a, ds, w);
    BlockInNumbers(b, ds, w);
    SlotsAgree(ReadSlots(a, w, n), ReadSlots(b, w, n), ds, xs, w);
    forall p | 8 <= p < 8 * q ensures StreamBit(a, p) == StreamBit(b, p) { PackedBitAgrees(a, b, w, n, p); }
    forall i | 0 <= i < |xs| ensures WordAt(a, q + 4 * i) == WordAt(b, q + 4 * i) {
      assert WordAt(a, q + 4 * i) == ds[xs[i] - 1];
    }
    forall p | 8 * q <= p < 8 * (q + 4 * |xs|) ensures StreamBit(a, p) == StreamBit(b, p) {
      WordBitAgrees(a, b, q, |xs|, p);
    }
    forall k | 1 <= k < q + 4 * |xs| ensures a[k] == b[k] { ByteAgrees(a, b, k); }
  }

  lemma ByteAgrees(a: seq<u8>, b: seq<u8>, k: nat)
    requires k < |a| && k < |b| && forall p :: 8 * k <= p < 8 * k + 8 ==> StreamBit(a, p) == StreamBit(b, p)
    ensures a[k] == b[k]
  {
    Pow2Values();
    forall i | 0 <= i < 8 ensures Bit(a[k], i) == Bit(b[k], i) {
      assert StreamBit(a, 8 * k + i) == StreamBit(b, 8 * k + i);
    }
    SameBits(a[k], b[k], 8);
  }

  lemma PackedBitAgrees(a: seq<u8>, b: seq<u8>, w: nat, n: nat, p: nat)
    requires 1 <= w <= 32 && 1 + PackedBytes(w, n) <= |a| && 1 + PackedBytes(w, n) <= |b|
    requires ReadSlots(a, w, n) == ReadSlots(b, w, n) && PadClear(a, w, n) && PadClear(b, w, n)
    requires 8 <= p < 8 * (1 + PackedBytes(w, n))
    ensures StreamBit(a, p) == StreamBit(b, p)
  {
    hide StreamBit, Field, PackedBytes;
    if p < 8 + SlotBits(w, n + 1) {
      var k := SlotOfBit(w, n + 1, p - 8);
      SlotInside(w, n, k);
      assert SlotAt(a, w, n, k) == ReadSlots(a, w, n)[k] == ReadSlots(b, w, n)[k] == SlotAt(b, w, n, k);
      SlotField(a, 1, w, k);
      SlotField(b, 1, w, k);
      FieldBits(a, 8 + SlotBits(w, k), w, p - 8 - SlotBits(w, k));
      FieldBits(b, 8 + SlotBits(w, k), w, p - 8 - SlotBits(w, k));
    }
  }

  // The slot that a bit belongs to
  lemma {:induction false} SlotOfBit(w: nat, m: nat, p: nat) returns (k: nat)
    requires p < SlotBits(w, m)
    ensures k < m && SlotBits(w, k) <= p < SlotBits(w, k) + w
  {
    if SlotBits(w, m - 1) <= p { k := m - 1; } else { k := SlotOfBit(w, m - 1, p); }
  }

  lemma WordBitAgrees(a: seq<u8>, b: seq<u8>, q: nat, c: nat, p: nat)
    requires q + 4 * c <= |a| && q + 4 * c <= |b| && 8 * q <= p < 8 * (q + 4 * c)
    requires forall i :: 0 <= i < c ==> WordAt(a, q + 4 * i) == WordAt(b, q + 4 * i)
    ensures StreamBit(a, p) == StreamBit(b, p)
  {
    hide StreamBit, WordAt;
    var i := (p - 8 * q) / 32;
    WordBits(a, q + 4 * i, p - 8 * (q + 4 * i));
    WordBits(b, q + 4 * i, p - 8 * (q + 4 * i));
  }

  // A header of any width from 1 to 32 is decoded: where slot 0 leads past the list, to the
  // running totals of the slots after it.
  lemma DecodeUnchained(s: seq<u8>, n: nat, last: u32)
    requires |s| >= 1 && 1 <= s[0] <= 32 && 1 + (s[0] * (n + 1) + 7) / 8 <= |s|
    ensures 1 + PackedBytes(s[0], n) <= |s|
    ensures var slots := ReadSlots(s, s[0], n);
      n < slots[0] < 0x8000_0000 ==> Decode(s, n, last) == Some(Sums(slots[1..], last))
  {
    hide PackedBytes, Sums;
    PackedBytesProduct(s[0], n);
    var slots := ReadSlots(s, s[0], n);
    if n < slots[0] < 0x8000_0000 { RestoreStops(ReadWord, slots, slots[0], s, 1 + PackedBytes(s[0], n)); }
  }

  // The whole codec, in terms of the list alone: a compressed list comes back exactly when
  // the chosen width is at most 30, or is 31 and no difference needs all 32 bits.
  lemma RoundTripExactly(s: seq<u8>, docs: seq<u32>, last: u32)
    requires 1 <= |docs| <= BLOCK_SIZE
    requires IsBlock(s, Deltas(docs), BitSize(Deltas(docs)))
    ensures Decode(s, |docs|, last) == Some(Shifted(docs, last)) <==>
      (BitSize(Deltas(docs)) <= 30 || forall k :: 0 <= k < |docs| ==> Deltas(docs)[k] < 0x8000_0000)
  {
    hide Decode, Holds, Deltas, BitSize;
    var ds := Deltas(docs);
    DecodeInvertsEncode(s, docs, BitSize(ds), last);
    if BitSize(ds) == 31 { ExceptionsAt31(ds, |ds|); }
  }

  // Two values whose differences are 2^30 and 2^31 are given width 31 and do not come back.
  lemma Width31Fails(s: seq<u8>)
    requires var docs := Sums([0x4000_0000, 0x8000_0000], 0);
      IsBlock(s, Deltas(docs), BitSize(Deltas(docs)))
    ensures Decode(s, 2, 0) == None
  {
    hide Decode, Holds, PartialBlock;
    var ds: seq<u32> := [0x4000_0000, 0x8000_0000];
    var docs := Sums(ds, 0);
    DeltasOfSums(ds);
    Width31Chosen(ds);
    DecodeInvertsEncode(s, docs, 31, 0);
    ExceptionsAt31(ds, 2);
  }

  lemma Width31Chosen(ds: seq<u32>)
    requires ds == [0x4000_0000, 0x8000_0000]
    ensures BitSize(ds) == 31
  {
    FittingPair(ds, 30);
    FittingPair(ds, 31);
    BitSizeUnique(ds, 31);
  }

  lemma FittingPair(ds: seq<u32>, w: nat)
    requires ds == [0x4000_0000, 0x8000_0000] && 30 <= w <= 31
    ensures Fitting(ds, w) == w - 30
  {
    hide BitLength;
    Pow2Values();
    assert ds[..1][..0] == [] && ds[..1] == [0x4000_0000];
    LengthIsLeastWidth(0x4000_0000, w);
    LengthIsLeastWidth(0x8000_0000, w);
  }

  // ---- the size of a block

  lemma PackedUpTo31(w: nat, n: nat)
    requires 1 <= w <= 31
    ensures PackedBytes(w, n) <= (31 * (n + 1) + 7) / 8
    ensures w == 1 ==> PackedBytes(w, n) == (n + 1 + 7) / 8
  {
    SlotBitsProduct(w, n + 1);
    MulMonotone(w, 31, n + 1);
  }

  // With the chosen width the block is within the documented 8 bytes per slot, even if an
  // exception took five bytes.
  lemma BlockFits(ds: seq<u32>)
    requires 1 <= |ds| <= BLOCK_SIZE && BitSize(ds) <= 31
    ensures var w, n := BitSize(ds), |ds|;
      BlockLength(ds, w) <= 1 + PackedBytes(w, n) + 4 * ((n - Quota(n)) + MostForced(n, w))
    ensures BlockLength(ds, BitSize(ds)) <= 8 * (|ds| + 1)
    ensures 1 + PackedBytes(BitSize(ds), |ds|) + 5 * |AllExceptions(ds, BitSize(ds))| <= 8 * (|ds| + 1)
  {
    hide AllExceptions, Quota, PackedBytes, SlotBits, Pow2, MostForced;
    var w, n := BitSize(ds), |ds|;
    ExceptionBound(ds);
    PackedUpTo31(w, n);
    ForcedShrinks(n, w);
    SizeSum(n, |AllExceptions(ds, w)|, MostForced(n, w), PackedBytes(w, n), if w == 1 then n + 1 else 31 * (n + 1));
  }

  lemma SizeSum(n: nat, e: nat, f: nat, packed: nat, bits: nat)
    requires 1 <= n && e <= (n - Quota(n)) + f
    requires packed <= (bits + 7) / 8
    requires (bits == n + 1 && f <= (n + 1) / 2) || (bits == 31 * (n + 1) && f <= (n + 1) / 4)
    ensures 1 + packed + 5 * e <= 8 * (n + 1)
  {
  }

  lemma ForcedShrinks(n: nat, w: nat)
    requires w >= 1
    ensures MostForced(n, w) <= (n + 1) / 2
    ensures w >= 2 ==> MostForced(n, w) <= (n + 1) / 4
  {
    Pow2Monotone(1, w);
    QuotientShrinks(n + 1, 2, Pow2(w));
    if w >= 2 {
      Pow2Monotone(2, w);
      QuotientShrinks(n + 1, 4, Pow2(w));
    }
  }

  lemma QuotientShrinks(m: nat, p: nat, q: nat)
    requires 1 <= p <= q
    ensures m / q <= m / p
  {
    MulMonotone(p, q, m / q);
    QuotientBound(m / q, p, m);
  }
}
