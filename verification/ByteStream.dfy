// A byte buffer seen two ways: as a stream of bits (bit 0 of byte 0 first) and,
// through unaligned little-endian pointers, as 32-bit words.

module ByteStream {
  import opened Bits

  // Bit p of the stream
  predicate StreamBit(s: seq<u8>, p: nat)
    requires p < 8 * |s|
  {
    Bit(s[p / 8], p % 8)
  }

  // *(uint32_t *)(s + q)
  function WordAt(s: seq<u8>, q: nat): u32
    requires q + 4 <= |s|
  {
    (s[q] as int) + 0x100 * (s[q + 1] as int) + 0x1_0000 * (s[q + 2] as int) + 0x100_0000 * (s[q + 3] as int)
  }

  // Byte m of a word, least significant first
  function ByteOf(v: u32, m: nat): (b: u8)
    requires m < 4
    ensures forall i: nat :: i < 8 ==> Bit(b, i) == Bit(v, 8 * m + i)
  {
    LowBound(Shr(v, 8 * m), 8);
    Pow2Values();
    var b := Low(Shr(v, 8 * m), 8);
    assert forall i: nat :: i < 8 ==> Bit(b, i) == Bit(v, 8 * m + i) by {
      forall i: nat | i < 8 ensures Bit(b, i) == Bit(v, 8 * m + i) {
        BitOfLow(Shr(v, 8 * m), 8, i);
        BitOfShr(v, 8 * m, i);
      }
    }
    b
  }

  // The buffer after *(uint32_t *)(s + q) = v
  function PutWord(s: seq<u8>, q: nat, v: u32): (r: seq<u8>)
    requires q + 4 <= |s|
    ensures |r| == |s|
  {
    s[q := ByteOf(v, 0)][q + 1 := ByteOf(v, 1)][q + 2 := ByteOf(v, 2)][q + 3 := ByteOf(v, 3)]
  }

  lemma WordBits(s: seq<u8>, q: nat, i: nat)
    requires q + 4 <= |s| && i < 32
    ensures Bit(WordAt(s, q), i) == StreamBit(s, 8 * q + i)
  {
    var t3 := s[q + 3] as int;
    var t2 := s[q + 2] as int + 0x100 * t3;
    var t1 := s[q + 1] as int + 0x100 * t2;
    hide Bit;
    assert WordAt(s, q) == s[q] as int + 0x100 * t1;
    BitOfByteAndRest(s[q], t1, i);
    if i >= 8 {
      BitOfByteAndRest(s[q + 1], t2, i - 8);
      if i >= 16 { BitOfByteAndRest(s[q + 2], t3, i - 16); }
    }
  }

  lemma BitOfByteAndRest(b: u8, rest: nat, i: nat)
    ensures Bit(b + 0x100 * rest, i) == if i < 8 then Bit(b, i) else Bit(rest, i - 8)
  {
    Pow2Values();
    BitOfConcat(b, rest, 8, i);
  }

  lemma PutWordBits(s: seq<u8>, q: nat, v: u32, p: nat)
    requires q + 4 <= |s| && p < 8 * |s|
    ensures StreamBit(PutWord(s, q, v), p)
         == if 8 * q <= p < 8 * q + 32 then Bit(v, p - 8 * q) else StreamBit(s, p)
  {
    if 8 * q <= p < 8 * q + 32 {
      var m := p / 8 - q;
      assert PutWord(s, q, v)[p / 8] == ByteOf(v, m);
      assert p - 8 * q == 8 * m + p % 8;
    }
  }

  // Words are determined by their bits in the stream.
  lemma WordFromBits(s: seq<u8>, q: nat, v: u32)
    requires q + 4 <= |s|
    requires forall i :: 0 <= i < 32 ==> StreamBit(s, 8 * q + i) == Bit(v, i)
    ensures WordAt(s, q) == v
  {
    Pow2Values();
    forall i | 0 <= i < 32 ensures Bit(WordAt(s, q), i) == Bit(v, i) { WordBits(s, q, i); }
    SameBits(WordAt(s, q), v, 32);
  }

  // The w bits of the stream from bit p on, read as a number
  function Field(s: seq<u8>, p: nat, w: nat): (v: nat)
    requires p + w <= 8 * |s|
    ensures v < Pow2(w)
    decreases w
  {
    if w == 0 then 0
    else (if StreamBit(s, p) then 1 else 0) + 2 * Field(s, p + 1, w - 1)
  }

  lemma {:induction false} FieldBits(s: seq<u8>, p: nat, w: nat, i: nat)
    requires p + w <= 8 * |s| && i < w
    ensures Bit(Field(s, p, w), i) == StreamBit(s, p + i)
    decreases w
  {
    var v := Field(s, p, w);
    assert v / 2 == Field(s, p + 1, w - 1);
    if i > 0 { FieldBits(s, p + 1, w - 1, i - 1); }
  }

  lemma FieldFromBits(s: seq<u8>, p: nat, w: nat, v: nat)
    requires p + w <= 8 * |s| && v < Pow2(w)
    requires forall i :: 0 <= i < w ==> StreamBit(s, p + i) == Bit(v, i)
    ensures Field(s, p, w) == v
  {
    forall i | 0 <= i < w ensures Bit(Field(s, p, w), i) == Bit(v, i) { FieldBits(s, p, w, i); }
    SameBits(Field(s, p, w), v, w);
  }

  // Reading the same bits gives the same number, whatever the rest of the two buffers holds.
  lemma SameField(s: seq<u8>, p: nat, s': seq<u8>, p': nat, w: nat)
    requires p + w <= 8 * |s| && p' + w <= 8 * |s'|
    requires forall j :: p <= j < p + w ==> StreamBit(s, j) == StreamBit(s', p' + (j - p))
    ensures Field(s, p, w) == Field(s', p', w)
  {
    forall i | 0 <= i < w ensures StreamBit(s, p + i) == Bit(Field(s', p', w), i) {
      FieldBits(s', p', w, i);
    }
    FieldFromBits(s, p, w, Field(s', p', w));
  }

  // The bits that k slots of w bits take
  function SlotBits(w: nat, k: nat): nat {
    if k == 0 then 0 else SlotBits(w, k - 1) + w
  }

  lemma {:induction false} SlotBitsProduct(w: nat, k: nat)
    ensures SlotBits(w, k) == k * w
  {
    if k > 0 {
      SlotBitsProduct(w, k - 1);
      assert k * w == (k - 1) * w + w;
    }
  }

  lemma {:induction false} SlotBitsMonotone(w: nat, k: nat, m: nat)
    requires k <= m
    ensures SlotBits(w, k) <= SlotBits(w, m)
  {
    if k < m { SlotBitsMonotone(w, k, m - 1); }
  }

  // Slot k of a stream of w-bit slots that starts at byte `entry` (0 beyond the buffer)
  function StreamSlot(s: seq<u8>, entry: nat, w: nat, k: nat): (v: u32)
    requires 1 <= w <= 32
  {
    if 8 * entry + SlotBits(w, k) + w > 8 * |s| then 0
    else
      Pow2Values();
      Pow2Monotone(w, 32);
      Field(s, 8 * entry + SlotBits(w, k), w)
  }
}
