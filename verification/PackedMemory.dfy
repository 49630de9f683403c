// Writes through unaligned word pointers into a byte buffer.

module PackedMemory {
  import opened Bits
  import opened ByteStream
  import opened DeltaCoding
  import opened ExceptionChain
  import opened BlockFormat

  // *(uint32_t *)(buf + q) = v
  method StoreWord(buf: array<u8>, q: nat, v: u32)
    requires q + 4 <= buf.Length
    modifies buf
    ensures buf[..] == PutWord(old(buf[..]), q, v)
  {
    buf[q], buf[q + 1], buf[q + 2], buf[q + 3] := ByteOf(v, 0), ByteOf(v, 1), ByteOf(v, 2), ByteOf(v, 3);
  }

  // The buffer after *(uint32_t *)(s + q) |= v
  function OrWord(s: seq<u8>, q: nat, v: u32): (r: seq<u8>)
    requires q + 4 <= |s|
    ensures |r| == |s|
  {
    PutWord(s, q, Or32(WordAt(s, q), v))
  }

  lemma OrWordBits(s: seq<u8>, q: nat, v: u32, p: nat)
    requires q + 4 <= |s| && p < 8 * |s|
    ensures StreamBit(OrWord(s, q, v), p)
         == (StreamBit(s, p) || (8 * q <= p < 8 * q + 32 && Bit(v, p - 8 * q)))
  {
    PutWordBits(s, q, Or32(WordAt(s, q), v), p);
    if 8 * q <= p < 8 * q + 32 { WordBits(s, q, p - 8 * q); }
  }

  // A value that ends within its first word
  lemma OrOneWord(s: seq<u8>, q: nat, ls: nat, w: nat, data: u32)
    requires q + 4 <= |s| && data < Pow2(w)
    requires ls + w <= 32
    ensures OredAt(s, OrWord(s, q, Shl32(data, ls)), 8 * q + ls, w, data)
  {
    var v := Shl32(data, ls);
    forall b: nat | b < 8 * |s|
      ensures StreamBit(OrWord(s, q, v), b)
           == (StreamBit(s, b) || (8 * q + ls <= b < 8 * q + ls + w && Bit(data, b - (8 * q + ls))))
    {
      OrWordBits(s, q, v, b);
      if b >= 8 * q + ls + w { BitAbove(data, w, b - 8 * q - ls); }
    }
  }

  // A value that straddles two words
  lemma OrTwoWords(s: seq<u8>, q: nat, ls: nat, w: nat, data: u32)
    requires q + 8 <= |s| && data < Pow2(w)
    requires ls < 32 < ls + w && w <= 32
    ensures OredAt(s, OrWord(OrWord(s, q, Shl32(data, ls)), q + 4, Shr32(data, 32 - ls)), 8 * q + ls, w, data)
  {
    hide Bit, Or32, Shl32, Shr32;
    var v := Shl32(data, ls);
    var u := Shr32(data, 32 - ls);
    var s1 := OrWord(s, q, v);
    forall b: nat | b < 8 * |s|
      ensures StreamBit(OrWord(s1, q + 4, u), b)
           == (StreamBit(s, b) || (8 * q + ls <= b < 8 * q + ls + w && Bit(data, b - (8 * q + ls))))
    {
      OrWordBits(s, q, v, b);
      OrWordBits(s1, q + 4, u, b);
      if b >= 8 * q + ls + w { BitAbove(data, w, b - 8 * q - ls); }
    }
  }

  // The byte offset past the words that slots 0..n of width w lie in
  function WordsEnd(entry: nat, w: nat, n: nat): nat {
    entry + 4 * ((SlotBits(w, n + 1) + 31) / 32)
  }

  lemma FirstWord(w: nat, n: nat)
    requires w >= 1
    ensures WordsEnd(1, w, n) >= 5
  {
  }

  // Which words the bits b .. b+w-1 lie in
  lemma SpanWords(b: nat, w: nat, total: nat)
    requires 1 <= w <= 32 && b + w <= total
    ensures var B, E := b / 32, (b + w - 1) / 32;
      && 0 <= b - 32 * B < 32
      && (E == B || E == B + 1) && (E == B <==> b - 32 * B + w <= 32)
      && 4 * E + 4 <= 4 * ((total + 31) / 32)
  {
  }

  // writeto: the value goes into slot i of the words that start at byte `entry`.
  method WriteTo(data: u32, buf: array<u8>, entry: nat, width: nat, i: nat, ghost n: nat)
    requires 1 <= width <= 32 && data < Pow2(width)
    requires i <= n && WordsEnd(entry, width, n) <= buf.Length
    modifies buf
    ensures OredAt(old(buf[..]), buf[..], 8 * entry + SlotBits(width, i), width, data)
  {
    SlotInside(width, n, i);
    SlotBitsProduct(width, i);
    WriteBits(data, buf, entry, width, i * width, SlotBits(width, n + 1));
  }

  // The same from the slot's first bit b on
  method WriteBits(data: u32, buf: array<u8>, entry: nat, width: nat, b: nat, ghost total: nat)
    requires 1 <= width <= 32 && data < Pow2(width)
    requires b + width <= total && entry + 4 * ((total + 31) / 32) <= buf.Length
    modifies buf
    ensures OredAt(old(buf[..]), buf[..], 8 * entry + b, width, data)
  {
    var e := b + width - 1;
    var B := b / 32;
    var E := e / 32;
    var ls := b - 32 * B;
    SpanWords(b, width, total);
    OrAcross(data, buf, entry + 4 * B, ls, entry + 4 * E, width);
  }

  // encode[B] |= data << ls, and encode[E] |= data >> (32 - ls) when E is another word
  method OrAcross(data: u32, buf: array<u8>, B: nat, ls: nat, E: nat, ghost width: nat)
    requires ls < 32 && width <= 32 && data < Pow2(width)
    requires if ls + width <= 32 then E == B else E == B + 4
    requires E + 4 <= buf.Length
    modifies buf
    ensures OredAt(old(buf[..]), buf[..], 8 * B + ls, width, data)
  {
    ghost var s := buf[..];
    StoreWord(buf, B, Or32(WordAt(buf[..], B), Shl32(data, ls)));
    if E != B {
      StoreWord(buf, E, Or32(WordAt(buf[..], E), Shr32(data, 32 - ls)));
      OrTwoWords(s, B, ls, width, data);
    } else {
      OrOneWord(s, B, ls, width, data);
    }
  }

  // *encode |= data, on the first word
  method OrHead(data: u32, buf: array<u8>, entry: nat, ghost width: nat)
    requires 1 <= width <= 32 && data < Pow2(width)
    requires entry + 4 <= buf.Length
    modifies buf
    ensures OredAt(old(buf[..]), buf[..], 8 * entry, width, data)
  {
    ghost var s := buf[..];
    StoreWord(buf, entry, Or32(WordAt(buf[..], entry), data));
    OrOneWord(s, entry, 0, width, data);
    ShlZero(data);
  }

  lemma ShlZero(x: u32)
    ensures Shl32(x, 0) == x
  {
    Pow2Values();
    LowAll(x, 32);
  }

  // *entry |= (uint8_t)((1u << width) - 1), on the first byte
  method OrHeadByte(buf: array<u8>, entry: nat, width: nat)
    requires 1 <= width <= 31 && entry < buf.Length
    modifies buf
    ensures NoException(width) < 0x1_0000_0000
    ensures OredAt(old(buf[..]), buf[..], 8 * entry, width, NoException(width))
  {
    ghost var s := buf[..];
    var m := HeadByte(width);
    Pow2Values();
    OrBound(buf[entry], m, 8);
    buf[entry] := Or(buf[entry], m);
    HeadByteOred(s, entry, m, width);
  }

  lemma HeadByteOred(s: seq<u8>, entry: nat, m: u8, width: nat)
    requires 1 <= width <= 31 && entry < |s| && m == NoException(width) < Pow2(width)
    requires Or(s[entry], m) < 0x100
    ensures OredAt(s, s[entry := Or(s[entry], m)], 8 * entry, width, m)
  {
    hide Pow2, Bit, Or, NoException;
    Pow2Values();
    var s' := s[entry := Or(s[entry], m)];
    forall b: nat | b < 8 * |s|
      ensures StreamBit(s', b)
           == (StreamBit(s, b) || (8 * entry <= b < 8 * entry + width && Bit(m, b - 8 * entry)))
    {
      if b / 8 == entry { BitOfOr(s[entry], m, b % 8); }
      if b - 8 * entry >= 8 { BitAbove(m, 8, b - 8 * entry); }
      if b - 8 * entry >= width { BitAbove(m, width, b - 8 * entry); }
    }
  }

  // The low byte of the mask
  function HeadByte(width: nat): (m: u8)
    requires 1 <= width <= 31
    ensures m == NoException(width) && m < Pow2(width)
  {
    Pow2Values();
    LowBound(Pow2(width) - 1, 8);
    LowByteOfMask(width);
    Low(Pow2(width) - 1, 8)
  }

  lemma LowByteOfMask(w: nat)
    requires w >= 1
    ensures Low(Pow2(w) - 1, 8) == NoException(w) < Pow2(w)
  {
    hide Pow2, Bit, Low;
    var x, y := Low(Pow2(w) - 1, 8), NoException(w);
    LowBound(Pow2(w) - 1, 8);
    NoExceptionFits(w);
    forall i | 0 <= i < 8 ensures Bit(x, i) == Bit(y, i) {
      BitOfLow(Pow2(w) - 1, 8, i);
      BitOfMask(w, i);
      BitOfMask(8, i);
    }
    SameBits(x, y, 8);
  }

  lemma NoExceptionFits(w: nat)
    requires w >= 1
    ensures NoException(w) < Pow2(8) && NoException(w) < Pow2(w) && Pow2(8) == 0x100
  {
    Pow2Values();
    if w <= 8 { Pow2Monotone(w, 8); } else { Pow2Monotone(9, w); }
  }

  // ---- the encoder's writes to the chain

  // Links the open slot to the exception in slot i+1: the head of the chain is or-ed into
  // the first word, later links go to the previous exception's slot.
  method WriteLink(buf: array<u8>, i: nat, lastexcept: int, bitSize: nat, ghost xs: seq<nat>, ghost n: nat)
    requires 1 <= bitSize <= 31 && i < n <= BLOCK_SIZE && WordsEnd(1, bitSize, n) <= buf.Length
    requires lastexcept == LastOf(xs) && OpenSlot(xs) <= i && 0 <= i - lastexcept < Pow2(bitSize)
    modifies buf
    ensures OredAt(old(buf[..]), buf[..], 8 + SlotBits(bitSize, OpenSlot(xs)), bitSize, i - lastexcept)
  {
    FirstWord(bitSize, n);
    hide Pow2, WordsEnd, OredAt;
    if lastexcept == -1 {
      OrHead(i + 1, buf, 1, bitSize);
    } else {
      WriteTo(i - lastexcept, buf, 1, bitSize, lastexcept, n);
    }
  }

  // Closes the chain: the last exception's slot gets the largest entry, and a block
  // without exceptions gets the mask's low byte in its first byte.
  method WriteEnd(buf: array<u8>, maxentry: u32, lastexcept: int, bitSize: nat, ghost xs: seq<nat>, ghost n: nat)
    requires 1 <= bitSize <= 31 && n <= BLOCK_SIZE && WordsEnd(1, bitSize, n) <= buf.Length
    requires maxentry == Pow2(bitSize) - 1
    requires lastexcept == LastOf(xs) && OpenSlot(xs) <= n
    modifies buf
    ensures EndMark(xs, bitSize) < Pow2(bitSize)
    ensures OredAt(old(buf[..]), buf[..], 8 + SlotBits(bitSize, OpenSlot(xs)), bitSize, EndMark(xs, bitSize))
  {
    FirstWord(bitSize, n);
    hide Pow2, WordsEnd, OredAt;
    NoExceptionFits(bitSize);
    if lastexcept != -1 {
      WriteTo(maxentry, buf, 1, bitSize, lastexcept, n);
    } else {
      OrHeadByte(buf, 1, bitSize);
    }
  }
}
