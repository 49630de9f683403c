// The block codec object: a list of at most 127 values is turned into differences, packed
// at the chosen width into the object's buffer, and read back through its result list.

module IndexCompressionCodec {
  import opened Bits
  import opened ByteStream
  import opened DeltaCoding
  import opened ExceptionChain
  import opened BlockFormat
  import opened PackedMemory
  import opened Unpackers

  class IndexCompression {
    const buf: array<u8>          // the compressed block
    const unpackBuf: array<u8>    // zero-padded copy of a short block's slots
    const bitsList: array<u8>     // how many values have each bit length
    const resultList: array<u32>  // slot 0, then the decoded values
    var offset: nat               // the compressed block's length
    var lastEncode: u32
    var lastDecode: u32

    ghost predicate Valid() {
      && buf.Length == (BLOCK_SIZE + 1) * 8
      && unpackBuf.Length == (BLOCK_SIZE + 1) * 4
      && bitsList.Length == 32
      && resultList.Length == BLOCK_SIZE + 1
      && buf != unpackBuf && buf != bitsList && unpackBuf != bitsList
    }

    constructor ()
      ensures Valid() && fresh(buf) && fresh(unpackBuf) && fresh(bitsList) && fresh(resultList)
      ensures offset == 0 && lastEncode == 0 && lastDecode == 0
      ensures buf.Length == 1024 && unpackBuf.Length == 512 && bitsList.Length == 32 && resultList.Length == 128
    {
      buf := new u8[(BLOCK_SIZE + 1) * 8];
      unpackBuf := new u8[(BLOCK_SIZE + 1) * 4];
      bitsList := new u8[32];
      resultList := new u32[BLOCK_SIZE + 1];
      offset, lastEncode, lastDecode := 0, 0, 0;
    }

    // Compresses the list, which is left holding its differences. When the chosen width is
    // 32 the mask (1u << 32) - 1 is undefined, and the call reports that instead.
    method Compression(docList: array<u32>, size: nat) returns (defined: bool)
      requires Valid() && 1 <= size <= BLOCK_SIZE && size <= docList.Length
      modifies this`offset, this`lastEncode, buf, bitsList, docList
      ensures var ds := Deltas(old(docList[..size]));
        && docList[..size] == ds
        && (defined <==> BitSize(ds) <= 31)
        && (defined ==> IsBlock(buf[..], ds, BitSize(ds)) && offset == BlockLength(ds, BitSize(ds)))
        && (defined ==> RestClear(buf[..], BitSize(ds), size, offset))
      ensures docList[size..] == old(docList[size..])
    {
      offset := 0;
      for b := 0 to buf.Length
        invariant forall k :: 0 <= k < b ==> buf[k] == 0
        invariant offset == 0 && docList[..] == old(docList[..])
      {
        buf[b] := 0;
      }
      GetDeltaList(docList, size);
      var bitSize := GetBitSize(docList, size);
      defined := bitSize < 32;
      if defined {
        Encode(docList, size, bitSize);
      }
    }

    // Reads the block back after slot 0 of the result list. The result is false where the
    // source has no defined behaviour: an unusable width, or a position or an exception
    // outside the buffers.
    method Decompression(comBuf: array<u8>, blockSize: nat) returns (ok: bool)
      requires Valid() && 1 <= blockSize <= BLOCK_SIZE
      requires comBuf.Length >= 1 && comBuf != unpackBuf
      modifies this`lastDecode, unpackBuf, resultList
      ensures ok <==> Decode(old(comBuf[..]), blockSize, old(lastDecode)).Some?
      ensures ok ==> resultList[1..blockSize + 1] == Decode(old(comBuf[..]), blockSize, old(lastDecode)).value
      ensures ok ==> lastDecode == resultList[blockSize]
    {
      hide Restore, ReadSlots, PackedBytes, Total;
      var bitSize: nat := comBuf[0];
      PackedBytesProduct(bitSize, blockSize);
      var ceilOffset := (bitSize * (blockSize + 1) + 7) / 8;
      if !(1 <= bitSize <= 32) || 1 + ceilOffset > comBuf.Length { return false; }
      UnpackSlots(comBuf, blockSize, bitSize, ceilOffset);
      ok := PutExceptionsBack(comBuf, blockSize, 1 + ceilOffset);
      if ok {
        DeDelta(resultList, blockSize);
      }
    }

    // Unpacks the slots into the result list; those of a short block are first copied into
    // a zeroed buffer, so that whole groups of 32 can be read.
    method UnpackSlots(comBuf: array<u8>, blockSize: nat, bitSize: nat, ceilOffset: nat)
      requires Valid() && 1 <= blockSize <= BLOCK_SIZE && 1 <= bitSize <= 32
      requires ceilOffset == PackedBytes(bitSize, blockSize) && 1 + ceilOffset <= comBuf.Length
      requires comBuf != unpackBuf
      modifies unpackBuf, resultList
      ensures comBuf[..] == old(comBuf[..])
      ensures resultList[..blockSize + 1] == ReadSlots(comBuf[..], bitSize, blockSize)
    {
      hide StreamSlot, PackedBytes;
      var unpackNum := (blockSize / 32 + 1) * 32;
      GroupBytes(bitSize, blockSize);
      if blockSize < BLOCK_SIZE {
        for k := 0 to unpackBuf.Length {
          unpackBuf[k] := 0;
        }
        for k := 0 to ceilOffset
          invariant forall b :: 0 <= b < k ==> unpackBuf[b] == comBuf[b + 1]
        {
          unpackBuf[k] := comBuf[k + 1];
        }
        Unpack(resultList, unpackBuf, 0, bitSize, unpackNum);
        forall k | 0 <= k <= blockSize ensures resultList[k] == SlotAt(comBuf[..], bitSize, blockSize, k) {
          CopiedSlot(comBuf[..], unpackBuf[..], bitSize, blockSize, k);
        }
      } else {
        Unpack(resultList, comBuf, 1, bitSize, unpackNum);
      }
    }

    // Follows the chain from slot 0, replacing each visited slot by the next exception.
    method PutExceptionsBack(comBuf: array<u8>, blockSize: nat, start: nat) returns (ok: bool)
      requires Valid() && 1 <= blockSize <= BLOCK_SIZE
      modifies resultList
      ensures var slots := old(resultList[..blockSize + 1]);
        match Restore(ReadWord, slots, AsSigned(slots[0]), comBuf[..], start)
        case None => !ok
        case Some((all, _)) => ok && resultList[..blockSize + 1] == all
    {
      hide Restore, AsSigned, WordAt, Add32;
      ghost var slots := resultList[..blockSize + 1];
      var excepts := start;
      var next := resultList[0];
      var i := 0;
      var shift := AsSigned(next);
      while shift <= blockSize
        invariant AsSigned(i + next) == shift
        invariant Restore(ReadWord, resultList[..blockSize + 1], shift, comBuf[..], excepts)
               == Restore(ReadWord, slots, AsSigned(slots[0]), comBuf[..], start)
        decreases comBuf.Length - excepts
      {
        ghost var before := resultList[..blockSize + 1];
        RestoreOnce(ReadWord, before, shift, comBuf[..], excepts);
        i := AsSigned(i + next);
        if i < 0 || excepts + 4 > comBuf.Length { return false; }
        var tmp := Add32(resultList[i], 1);
        resultList[i] := WordAt(comBuf[..], excepts);
        assert resultList[..blockSize + 1] == before[i := WordAt(comBuf[..], excepts)];
        excepts := excepts + 4;
        next := tmp;
        shift := AsSigned(shift + next);
      }
      RestoreOnce(ReadWord, resultList[..blockSize + 1], shift, comBuf[..], excepts);
      return true;
    }

    // The length of the last compressed block
    method GetCompSize() returns (n: nat)
      ensures n == offset
    {
      n := offset;
    }

    method ClearEncode()
      modifies this`lastEncode
      ensures lastEncode == 0
    {
      lastEncode := 0;
    }

    method ClearDecode()
      modifies this`lastDecode
      ensures lastDecode == 0
    {
      lastDecode := 0;
    }

    // Differences in place
    method GetDeltaList(docList: array<u32>, size: nat)
      requires size <= docList.Length
      modifies this`lastEncode, docList
      ensures docList[..size] == Deltas(old(docList[..size]))
      ensures docList[size..] == old(docList[size..])
    {
      lastEncode := 0;
      ghost var all := docList[..];
      ghost var docs := all[..size];
      ghost var ds := Deltas(docs);
      for i := 0 to size
        invariant lastEncode == Previous(docs, i)
        invariant docList[..] == Replaced(ds, all, i)
      {
        Advance(ds, all, i);
        var tmp := docList[i];
        docList[i] := Sub32(docList[i], lastEncode);
        lastEncode := tmp;
      }
    }

    // Running totals in place, over the `size` entries after the first
    method DeDelta(list: array<u32>, size: nat)
      requires 1 + size <= list.Length
      modifies this`lastDecode, list
      ensures list[1..size + 1] == Sums(old(list[1..size + 1]), old(lastDecode))
      ensures lastDecode == Total(old(list[1..size + 1]), old(lastDecode), size)
    {
      ghost var all := list[..];
      ghost var ds := all[1..size + 1];
      ghost var docs := Sums(ds, lastDecode);
      for i := 0 to size
        invariant lastDecode == Total(ds, old(lastDecode), i)
        invariant list[..] == AfterFirst(docs, all, i)
      {
        AdvanceAfterFirst(docs, all, i);
        assert list[1 + i] == list[..][1 + i] == ds[i];
        list[1 + i] := Add32(list[1 + i], lastDecode);
        lastDecode := list[1 + i];
      }
    }

    // One more than the index of the highest set bit, and 1 for zero
    method GetBits(value: u32) returns (bits: nat)
      ensures bits == BitLength(value) && 1 <= bits <= 32
    {
      LengthOfWord(value);
      if value == 0 { return 1; }
      bits := HighestBit(value);
      return bits + 1;
    }

    // The least width that holds nine tenths of the differences
    method GetBitSize(deltaList: array<u32>, size: nat) returns (bitSize: nat)
      requires Valid() && 1 <= size <= BLOCK_SIZE && size <= deltaList.Length
      modifies bitsList
      ensures bitSize == BitSize(deltaList[..size])
      ensures size > 1 ==>
        && 10 * Fitting(deltaList[..size], bitSize) > 9 * size - 10
        && 10 * (Fitting(deltaList[..size], bitSize - 1) + 1) <= 9 * size
    {
      hide Pow2, BitLength, CoversQuota, BitSize, Fitting, Counted;
      var quota: int := if size > 1 then size * 9 / 10 else 1;
      ghost var ds := deltaList[..size];
      for b := 0 to 32
        invariant forall k :: 0 <= k < b ==> bitsList[k] == 0
      {
        bitsList[b] := 0;
      }
      NoneCounted(ds);
      for i := 0 to size
        invariant forall b :: 0 <= b < 32 ==> bitsList[b] as int == Counted(ds, i, b)
      {
        var bits := GetBits(deltaList[i]);
        OneCounted(ds, i);
        bitsList[bits - 1] := bitsList[bits - 1] + 1;
      }
      bitSize := 0;
      AllFit(ds);
      while quota > 0
        invariant 0 <= bitSize <= 32
        invariant forall b :: 0 <= b < 32 ==> bitsList[b] as int == Counted(ds, size, b)
        invariant quota == Quota(size) - Fitting(ds, bitSize)
        invariant bitSize > 0 ==> Fitting(ds, bitSize - 1) < Quota(size)
        decreases 32 - bitSize
      {
        FittingStep(ds, bitSize);
        quota := quota - bitsList[bitSize] as int;
        bitSize := bitSize + 1;
      }
      WidthFound(ds, bitSize);
        NineTenthsFit(ds, bitSize);
    }

    // Packs the differences into the zeroed buffer.
    method Encode(deltaList: array<u32>, listSize: nat, bitSize: nat)
      requires Valid() && 1 <= listSize <= BLOCK_SIZE && listSize <= deltaList.Length
      requires 1 <= bitSize <= 31
      requires offset == 0 && forall b :: 0 <= b < buf.Length ==> buf[b] == 0
      modifies this`offset, buf
      ensures IsBlock(buf[..], deltaList[..listSize], bitSize)
      ensures RestClear(buf[..], bitSize, listSize, offset)
      ensures offset == BlockLength(deltaList[..listSize], bitSize)
    {
      hide Pow2, SlotBits, PackedBytes, WordsEnd, PartialBlock, OredAt, PutWord, RestClear;
      ghost var ds := deltaList[..listSize];
      EntrySize(bitSize, listSize);
      var maxentry: u32 := Pow2(bitSize) - 1;
      buf[0] := bitSize;
      offset := offset + 1;
      PackedBytesProduct(bitSize, listSize);
      var ceilOffset := (bitSize * (listSize + 1) + 7) / 8;
      var excepts := 1 + ceilOffset;
      offset := offset + ceilOffset;
      var lastexcept: int := -1;
      var i := 0;
      ghost var xs: seq<nat> := [];
      EmptyBlock(buf[..], ds, bitSize);
      EmptyRest(buf[..], bitSize, listSize);
      for j := 0 to listSize
        invariant i == j && xs == Exceptions(ds, bitSize, j) && lastexcept == LastOf(xs)
        invariant PartialBlock(buf[..], ds, bitSize, xs, j, 0) && RestClear(buf[..], bitSize, listSize, offset)
        invariant offset == excepts == 1 + PackedBytes(bitSize, listSize) + 4 * |xs|
      {
        ghost var s := buf[..];
        OpenSlotFits(s, ds, bitSize, xs, j);
        if deltaList[j] > maxentry || i - lastexcept >= maxentry {
          WriteLink(buf, i, lastexcept, bitSize, xs, listSize);
          ghost var s' := buf[..];
          lastexcept := i + 1;
          AddExcept(deltaList[j], excepts);
          excepts := excepts + 4;
          ExceptionKept(s, s', ds, bitSize, xs, j);
          xs := xs + [j + 1];
        } else {
          WriteTo(deltaList[j], buf, 1, bitSize, i + 1, listSize);
          NormalKept(s, buf[..], ds, bitSize, xs, j, offset);
        }
        i := i + 1;
      }
      ghost var s := buf[..];
      OpenSlotFits(s, ds, bitSize, xs, listSize);
      WriteEnd(buf, maxentry, lastexcept, bitSize, xs, listSize);
      EndKept(s, buf[..], ds, bitSize, xs, offset);
    }

    method AddExcept(data: u32, excepts: nat)
      requires excepts + 4 <= buf.Length
      modifies this`offset, buf
      ensures buf[..] == PutWord(old(buf[..]), excepts, data)
      ensures offset == old(offset) + 4
    {
      StoreWord(buf, excepts, data);
      offset := offset + 4;
    }
  }

  // The round trip on the object itself: the list compressed into the codec's own buffer and
  // read back from it, after the running total is cleared.
  method CompressAndRestore(codec: IndexCompression, docList: array<u32>, size: nat)
    returns (defined: bool, ok: bool)
    requires codec.Valid() && 1 <= size <= BLOCK_SIZE && size <= docList.Length
    requires docList != codec.resultList
    modifies codec, codec.buf, codec.unpackBuf, codec.bitsList, codec.resultList, docList
    ensures var docs := old(docList[..size]);
      && (defined <==> BitSize(Deltas(docs)) <= 31)
      && (ok <==> (BitSize(Deltas(docs)) <= 30
                   || (defined && forall k :: 0 <= k < size ==> Deltas(docs)[k] < 0x8000_0000)))
      && (ok ==> codec.resultList[1..size + 1] == docs)
      && (defined ==> codec.offset <= 8 * (size + 1))
  {
    hide BitSize, Deltas, IsBlock, Decode, BlockLength;
    ghost var docs := docList[..size];
    defined := codec.Compression(docList, size);
    ok := false;
    if defined {
      ghost var s := codec.buf[..];
      codec.ClearDecode();
      ok := codec.Decompression(codec.buf, size);
      RoundTripExactly(s, docs, 0);
      DecodeInvertsEncode(s, docs, BitSize(Deltas(docs)), 0);
      BlockFits(Deltas(docs));
    }
  }

  // ---- steps of the decoder

  // The groups of 32 slots that hold slots 0..n, and their bytes
  lemma GroupBytes(w: nat, n: nat)
    requires 1 <= w <= 32 && n <= BLOCK_SIZE
    ensures n + 1 <= 32 * (n / 32 + 1) <= BLOCK_SIZE + 1
    ensures 4 * w * (n / 32 + 1) <= (BLOCK_SIZE + 1) * 4
    ensures PackedBytes(w, n) <= (BLOCK_SIZE + 1) * 4
    ensures n == BLOCK_SIZE ==> 4 * w * (n / 32 + 1) == PackedBytes(w, n)
  {
    PackedBytesProduct(w, n);
    MulMonotone(n / 32 + 1, 4, 4 * w);
    MulMonotone(n + 1, 128, w);
  }

  // ---- steps of the encoder

  // The packed area and the exceptions of the longest list stay inside the 1024 bytes.
  lemma EntrySize(w: nat, n: nat)
    requires 1 <= w <= 31 && n <= BLOCK_SIZE
    ensures 1 <= Pow2(w) <= 0x8000_0000
    ensures 1 + PackedBytes(w, n) + 4 * n + 4 <= (BLOCK_SIZE + 1) * 8
    ensures WordsEnd(1, w, n) <= (BLOCK_SIZE + 1) * 8
  {
    Pow2Values();
    Pow2Monotone(w, 31);
    SlotBitsProduct(w, n + 1);
    MulMonotone(n + 1, 128, w);
  }

  lemma EmptyBlock(s: seq<u8>, ds: seq<u32>, w: nat)
    requires 1 <= w <= 31 && 1 + PackedBytes(w, |ds|) <= |s|
    requires s[0] == w && forall b :: 1 <= b < |s| ==> s[b] == 0
    ensures PartialBlock(s, ds, w, [], 0, 0)
  {
    ZeroSlots(s, w, |ds|);
    HoldsNothing(ReadSlots(s, w, |ds|), ds);
  }

  // The same steps with the rest of the buffer, zero from byte e on
  lemma NormalKept(s: seq<u8>, s': seq<u8>, ds: seq<u32>, w: nat, xs: seq<nat>, j: nat, e: nat)
    requires j < |ds| && PartialBlock(s, ds, w, xs, j, 0) && RestClear(s, w, |ds|, e)
    requires 1 + PackedBytes(w, |ds|) <= e <= |s|
    requires ds[j] < Pow2(w) && OredAt(s, s', 8 + SlotBits(w, j + 1), w, ds[j])
    ensures PartialBlock(s', ds, w, xs, j + 1, 0) && RestClear(s', w, |ds|, e)
  {
    hide *;
    NormalWritten(s, s', ds, w, xs, j);
    RestAfterSlot(s, s', w, |ds|, e, j + 1, ds[j]);
  }

  lemma ExceptionKept(s: seq<u8>, s': seq<u8>, ds: seq<u32>, w: nat, xs: seq<nat>, j: nat)
    requires j < |ds| <= BLOCK_SIZE && xs == Exceptions(ds, w, j)
    requires PartialBlock(s, ds, w, xs, j, 0) && RestClear(s, w, |ds|, 1 + PackedBytes(w, |ds|) + 4 * |xs|)
    requires 1 + PackedBytes(w, |ds|) + 4 * |xs| + 4 <= |s|
    requires 0 <= j - LastOf(xs) < Pow2(w) && OpenSlot(xs) <= j
    requires OredAt(s, s', 8 + SlotBits(w, OpenSlot(xs)), w, j - LastOf(xs))
    ensures |s'| == |s|
    ensures var e := 1 + PackedBytes(w, |ds|) + 4 * |xs|;
      && PartialBlock(PutWord(s', e, ds[j]), ds, w, xs + [j + 1], j + 1, 0)
      && RestClear(PutWord(s', e, ds[j]), w, |ds|, e + 4)
  {
    hide *;
    var e := 1 + PackedBytes(w, |ds|) + 4 * |xs|;
    ExceptionWritten(s, s', ds, w, xs, j);
    RestAfterSlot(s, s', w, |ds|, e, OpenSlot(xs), j - LastOf(xs));
    RestAfterWord(s', w, |ds|, e, ds[j]);
  }

  lemma EndKept(s: seq<u8>, s': seq<u8>, ds: seq<u32>, w: nat, xs: seq<nat>, e: nat)
    requires 1 <= |ds| <= BLOCK_SIZE && xs == AllExceptions(ds, w)
    requires PartialBlock(s, ds, w, xs, |ds|, 0) && RestClear(s, w, |ds|, e)
    requires 1 + PackedBytes(w, |ds|) <= e <= |s|
    requires EndMark(xs, w) < Pow2(w) <= 0x8000_0000 && OpenSlot(xs) <= |ds|
    requires OredAt(s, s', 8 + SlotBits(w, OpenSlot(xs)), w, EndMark(xs, w))
    ensures IsBlock(s', ds, w) && RestClear(s', w, |ds|, e)
  {
    hide *;
    EndWritten(s, s', ds, w, xs);
    RestAfterSlot(s, s', w, |ds|, e, OpenSlot(xs), EndMark(xs, w));
  }

  lemma EmptyRest(s: seq<u8>, w: nat, n: nat)
    requires 1 + PackedBytes(w, n) <= |s| && forall b :: 1 <= b < |s| ==> s[b] == 0
    ensures RestClear(s, w, n, 1 + PackedBytes(w, n))
  {
    hide PackedBytes, PadClear;
    PadOfZeros(s, w, n);
  }

  // The slot for the next link is one of the block's, and the link fits it.
  lemma OpenSlotFits(s: seq<u8>, ds: seq<u32>, w: nat, xs: seq<nat>, j: nat)
    requires j <= |ds| && xs == Exceptions(ds, w, j)
    requires PartialBlock(s, ds, w, xs, j, 0)
    ensures OpenSlot(xs) <= j && 0 <= j - LastOf(xs) < Pow2(w)
  {
    hide Holds, Exceptions;
    ExceptionsShape(ds, w, j);
    OpenSlotIsEmpty(ReadSlots(s, w, |ds|), ReadWords(s, 1 + PackedBytes(w, |ds|), |xs|), ds, xs, j);
  }

  lemma NormalWritten(s: seq<u8>, s': seq<u8>, ds: seq<u32>, w: nat, xs: seq<nat>, j: nat)
    requires j < |ds| && PartialBlock(s, ds, w, xs, j, 0)
    requires ds[j] < Pow2(w)
    requires OredAt(s, s', 8 + SlotBits(w, j + 1), w, ds[j])
    ensures PartialBlock(s', ds, w, xs, j + 1, 0)
  {
    hide Pow2, SlotBits, PackedBytes, StreamSlot, Holds, OredAt;
    HoldsNormal(ReadSlots(s, w, |ds|), ReadWords(s, 1 + PackedBytes(w, |ds|), |xs|), ds, xs, j);
    SlotWritten(s, s', w, |ds|, j + 1, ds[j], |xs|);
  }

  // The link goes into the open slot, giving s', and then the exception's word is stored.
  lemma ExceptionWritten(s: seq<u8>, s': seq<u8>, ds: seq<u32>, w: nat, xs: seq<nat>, j: nat)
    requires j < |ds| <= BLOCK_SIZE && xs == Exceptions(ds, w, j)
    requires PartialBlock(s, ds, w, xs, j, 0)
    requires 1 + PackedBytes(w, |ds|) + 4 * |xs| + 4 <= |s|
    requires 0 <= j - LastOf(xs) < Pow2(w) && OpenSlot(xs) <= j
    requires OredAt(s, s', 8 + SlotBits(w, OpenSlot(xs)), w, j - LastOf(xs))
    ensures |s'| == |s|
    ensures PartialBlock(PutWord(s', 1 + PackedBytes(w, |ds|) + 4 * |xs|, ds[j]), ds, w, xs + [j + 1], j + 1, 0)
  {
    hide Pow2, SlotBits, PackedBytes, StreamSlot, Holds, OredAt, Exceptions, OpenSlot, PutWord;
    var slots := ReadSlots(s, w, |ds|);
    var excs := ReadWords(s, 1 + PackedBytes(w, |ds|), |xs|);
    ExceptionsShape(ds, w, j);
    HoldsException(slots, excs, ds, xs, j);
    SlotWritten(s, s', w, |ds|, OpenSlot(xs), j - LastOf(xs), |xs|);
    ExceptionAppended(s', w, |ds|, |xs|, ds[j]);
  }

  lemma EndWritten(s: seq<u8>, s': seq<u8>, ds: seq<u32>, w: nat, xs: seq<nat>)
    requires 1 <= |ds| <= BLOCK_SIZE && xs == AllExceptions(ds, w)
    requires PartialBlock(s, ds, w, xs, |ds|, 0)
    requires EndMark(xs, w) < Pow2(w) <= 0x8000_0000 && OpenSlot(xs) <= |ds|
    requires OredAt(s, s', 8 + SlotBits(w, OpenSlot(xs)), w, EndMark(xs, w))
    ensures IsBlock(s', ds, w)
  {
    hide Pow2, SlotBits, PackedBytes, StreamSlot, Holds, OredAt, Exceptions, OpenSlot;
    var slots := ReadSlots(s, w, |ds|);
    var excs := ReadWords(s, 1 + PackedBytes(w, |ds|), |xs|);
    ExceptionsShape(ds, w, |ds|);
    HoldsClosed(slots, excs, ds, xs, EndMark(xs, w));
    SlotWritten(s, s', w, |ds|, OpenSlot(xs), EndMark(xs, w), |xs|);
  }
}
