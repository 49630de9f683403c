// The improved block codec: loops unrolled by four, exceptions stored as variable-length
// integers, and a decoder that sums in place while it drops slot 0.

module P4Delta {
  import opened Bits
  import opened ByteStream
  import opened DeltaCoding
  import opened ExceptionChain
  import opened BlockFormat
  import opened PackedMemory
  import opened Unpackers
  import opened P4DeltaBlock

  // Differences in place, four at a time
  method Delta(arr: array<u32>, num: nat)
    requires num <= arr.Length
    modifies arr
    ensures arr[..] == Replaced(Deltas(old(arr[..num])), old(arr[..]), num)
  {
    hide Deltas, Replaced;
    ghost var all := arr[..];
    ghost var docs := all[..num];
    ghost var ds := Deltas(docs);
    var alignNum := num / 4 * 4;
    var last: u32 := 0;
    var i := 0;
    NothingReplaced(ds, all);
    while i < alignNum
      invariant i <= alignNum && i % 4 == 0
      invariant last == Previous(docs, i)
      invariant arr[..] == Replaced(ds, all, i)
    {
      Advance4(ds, all, i);
      FourDeltas(docs, i);
      var arr0, arr1, arr2, arr3 := arr[i], arr[i + 1], arr[i + 2], arr[i + 3];
      assert arr0 == arr[..][i] && arr1 == arr[..][i + 1] && arr2 == arr[..][i + 2] && arr3 == arr[..][i + 3];
      arr[i] := Sub32(arr0, last);
      arr[i + 1] := Sub32(arr1, arr0);
      arr[i + 2] := Sub32(arr2, arr1);
      arr[i + 3] := Sub32(arr3, arr2);
      last := arr3;
      i := i + 4;
    }
    while i < num
      invariant alignNum <= i <= num
      invariant last == Previous(docs, i)
      invariant arr[..] == Replaced(ds, all, i)
    {
      Advance(ds, all, i);
      OneDelta(docs, i);
      var curr := arr[i];
      assert curr == arr[..][i];
      arr[i] := Sub32(curr, last);
      last := curr;
      i := i + 1;
    }
  }

  // Running totals in place, four at a time
  method DeDelta(arr: array<u32>, num: nat)
    requires num <= arr.Length
    modifies arr
    ensures arr[..] == Replaced(Sums(old(arr[..num]), 0), old(arr[..]), num)
  {
    hide Sums, Replaced, Add32;
    ghost var all := arr[..];
    ghost var ds := all[..num];
    ghost var docs := Sums(ds, 0);
    var total: u32 := 0;
    var alignNum := num / 4 * 4;
    var i := 0;
    NothingReplaced(docs, all);
    while i < alignNum
      invariant i <= alignNum && i % 4 == 0
      invariant total == Total(ds, 0, i)
      invariant arr[..] == Replaced(docs, all, i)
    {
      Advance4(docs, all, i);
      FourSums(ds, i);
      var arr0, arr1, arr2, arr3 := arr[i], arr[i + 1], arr[i + 2], arr[i + 3];
      assert arr0 == arr[..][i] && arr1 == arr[..][i + 1] && arr2 == arr[..][i + 2] && arr3 == arr[..][i + 3];
      var half1 := Add32(arr0, arr1);
      var half2 := Add32(arr2, arr3);
      arr[i] := Add32(arr0, total);
      arr[i + 1] := Add32(arr1, Add32(total, arr0));
      arr[i + 2] := Add32(arr2, Add32(total, half1));
      arr[i + 3] := Add32(arr3, Add32(Add32(total, half1), arr2));
      total := Add32(total, Add32(half1, half2));
      i := i + 4;
    }
    if alignNum > 0 {
      DeDeltaTail(arr, alignNum, num, ds, docs, all);
    } else if num > 0 {
      FirstSum(ds, docs, all);
      DeDeltaTail(arr, 1, num, ds, docs, all);
    }
  }

  // arr[i] += arr[i - 1] from `from` on, in the two loops after the unrolled one
  method DeDeltaTail(arr: array<u32>, from: nat, num: nat,
                     ghost ds: seq<u32>, ghost docs: seq<u32>, ghost all: seq<u32>)
    requires 1 <= from <= num <= arr.Length
    requires |all| == arr.Length && ds == all[..num] && docs == Sums(ds, 0)
    requires arr[..] == Replaced(docs, all, from)
    modifies arr
    ensures arr[..] == Replaced(docs, all, num)
  {
    hide Sums, Replaced, Add32;
    var i := from;
    while i < num
      invariant from <= i <= num
      invariant arr[..] == Replaced(docs, all, i)
    {
      Advance(docs, all, i);
      NextSum(ds, docs, all, i);
      assert arr[i] == arr[..][i] && arr[i - 1] == arr[..][i - 1];
      arr[i] := Add32(arr[i], arr[i - 1]);
      i := i + 1;
    }
  }

  // Differencing and summing in place undo each other, on every list.
  method DeltaThenDeDelta(arr: array<u32>, num: nat)
    requires num <= arr.Length
    modifies arr
    ensures arr[..] == old(arr[..])
  {
    hide Sums, Deltas;
    ghost var all := arr[..];
    ghost var docs := all[..num];
    Delta(arr, num);
    assert arr[..num] == Deltas(docs);
    DeDelta(arr, num);
    SumsOfDeltas(docs, 0);
    assert arr[..] == all;
  }

  // ---- steps of those loops

  lemma NothingReplaced<T>(xs: seq<T>, ys: seq<T>)
    requires |xs| <= |ys|
    ensures Replaced(xs, ys, 0) == ys
  {
  }

  lemma OneDelta(docs: seq<u32>, i: nat)
    requires i < |docs|
    ensures Deltas(docs)[i] == Sub32(docs[i], Previous(docs, i))
    ensures Previous(docs, i + 1) == docs[i]
  {
  }

  lemma FourDeltas(docs: seq<u32>, i: nat)
    requires i + 4 <= |docs|
    ensures Deltas(docs)[i] == Sub32(docs[i], Previous(docs, i))
    ensures Deltas(docs)[i + 1] == Sub32(docs[i + 1], docs[i])
    ensures Deltas(docs)[i + 2] == Sub32(docs[i + 2], docs[i + 1])
    ensures Deltas(docs)[i + 3] == Sub32(docs[i + 3], docs[i + 2])
    ensures Previous(docs, i + 4) == docs[i + 3]
  {
    OneDelta(docs, i);
    OneDelta(docs, i + 1);
    OneDelta(docs, i + 2);
    OneDelta(docs, i + 3);
  }

  lemma FourSums(ds: seq<u32>, i: nat)
    requires i + 4 <= |ds|
    ensures var t, h, g := Total(ds, 0, i), Add32(ds[i], ds[i + 1]), Add32(ds[i + 2], ds[i + 3]);
      && Sums(ds, 0)[i] == Add32(t, ds[i]) == Add32(ds[i], t)
      && Sums(ds, 0)[i + 1] == Add32(t, h) == Add32(ds[i + 1], Add32(t, ds[i]))
      && Sums(ds, 0)[i + 2] == Add32(Add32(t, h), ds[i + 2]) == Add32(ds[i + 2], Add32(t, h))
      && Sums(ds, 0)[i + 3] == Add32(Add32(t, h), g) == Add32(ds[i + 3], Add32(Add32(t, h), ds[i + 2]))
      && Total(ds, 0, i + 4) == Add32(t, Add32(h, g))
  {
    hide Add32, Total;
    var t, h := Total(ds, 0, i), Add32(ds[i], ds[i + 1]);
    FourTotals(ds, 0, i);
    AddAssociates(t, ds[i], ds[i + 1]);
    AddAssociates(Add32(t, ds[i]), ds[i + 1], 0);
    AddAssociates(Add32(t, h), ds[i + 2], ds[i + 3]);
    AddAssociates(Add32(Add32(t, h), ds[i + 2]), ds[i + 3], 0);
  }

  lemma FirstSum(ds: seq<u32>, docs: seq<u32>, all: seq<u32>)
    requires 1 <= |ds| <= |all| && ds == all[..|ds|] && docs == Sums(ds, 0)
    ensures Replaced(docs, all, 1) == all
  {
    assert docs[0] == Total(ds, 0, 1) == Add32(0, ds[0]) == ds[0];
  }

  lemma NextSum(ds: seq<u32>, docs: seq<u32>, all: seq<u32>, i: nat)
    requires 1 <= i < |ds| && |ds| <= |all| && ds == all[..|ds|] && docs == Sums(ds, 0)
    ensures Replaced(docs, all, i)[i - 1] == docs[i - 1]
    ensures Replaced(docs, all, i)[i] == ds[i]
    ensures docs[i] == Add32(ds[i], docs[i - 1])
  {
    hide Add32;
    AddAssociates(Total(ds, 0, i), ds[i], 0);
  }

  // The least width that holds nine tenths of the differences. The bit scan has no result
  // for zero, so the differences are non-zero.
  method GetBitSize(arr: array<u32>, num: nat) returns (bits: nat)
    requires 1 <= num <= BLOCK_SIZE && num <= arr.Length
    requires forall k :: 0 <= k < num ==> arr[k] != 0
    ensures bits == BitSize(arr[..num])
    ensures num > 1 ==>
      10 * Fitting(arr[..num], bits) > 9 * num - 10 && 10 * (Fitting(arr[..num], bits - 1) + 1) <= 9 * num
  {
    hide Pow2, CoversQuota, BitSize, Fitting, Counted;
    var offset: int := if num > 1 then num * 9 / 10 else 1;
    var list := new u8[32](i => 0);
    ghost var ds := arr[..num];
    NoneCounted(ds);
    for i := 0 to num
      invariant forall b :: 0 <= b < 32 ==> list[b] as int == Counted(ds, i, b)
    {
      var bit := HighestBit(arr[i]);
      LengthOfWord(arr[i]);
      OneCounted(ds, i);
      list[bit] := list[bit] + 1;
    }
    bits := 0;
    AllFit(ds);
    while offset > 0
      invariant 0 <= bits <= 32
      invariant forall b :: 0 <= b < 32 ==> list[b] as int == Counted(ds, num, b)
      invariant offset == Quota(num) - Fitting(ds, bits)
      invariant bits > 0 ==> Fitting(ds, bits - 1) < Quota(num)
      decreases 32 - bits
    {
      FittingStep(ds, bits);
      offset := offset - list[bits] as int;
      bits := bits + 1;
    }
    WidthFound(ds, bits);
    NineTenthsFit(ds, bits);
  }

  // varint_encode_uint32: the value's bytes at pos, and the position after them
  method VarintEncode(v: u32, buf: array<u8>, pos: nat, enc: VarintEncoder) returns (end: nat)
    requires pos + |enc(v)| <= buf.Length
    modifies buf
    ensures end == pos + |enc(v)|
    ensures buf[..pos] == old(buf[..pos]) && HasAt(buf[..], pos, enc(v))
  {
    var bytes := enc(v);
    for i := 0 to |bytes|
      invariant forall k :: 0 <= k < i ==> buf[pos + k] == bytes[k]
      invariant buf[..pos] == old(buf[..pos])
    {
      buf[pos + i] := bytes[i];
    }
    end := pos + |bytes|;
  }

  // encode[0] .. encode[ecNum-1] = 0, on the words from byte 1 on
  method ClearWords(buf: array<u8>, ecNum: nat)
    requires 1 + 4 * ecNum <= buf.Length
    modifies buf
    ensures buf[0] == old(buf[0])
    ensures forall b :: 1 <= b < 1 + 4 * ecNum ==> buf[b] == 0
  {
    for i := 0 to ecNum
      invariant buf[0] == old(buf[0])
      invariant forall b :: 1 <= b < 1 + 4 * i ==> buf[b] == 0
    {
      buf[1 + 4 * i], buf[2 + 4 * i], buf[3 + 4 * i], buf[4 + 4 * i] := 0, 0, 0, 0;
    }
  }

  // Compresses into the caller's buffer of 8 bytes per slot, whatever it holds, and gives
  // the array back as it was. When the chosen width is 32 the mask (1u << 32) - 1 is
  // undefined, and the call reports that instead.
  method Compress(inArr: array<u32>, num: nat, buf: array<u8>, enc: VarintEncoder)
    returns (defined: bool, len: nat, ghost excs: seq<u32>)
    requires 1 <= num <= BLOCK_SIZE && num <= inArr.Length && 8 * (num + 1) <= buf.Length
    requires forall v: u32 :: |enc(v)| <= 5
    requires forall k :: 0 <= k < num ==> Deltas(inArr[..num])[k] != 0
    modifies inArr, buf
    ensures var ds := Deltas(old(inArr[..num]));
      && (defined <==> BitSize(ds) <= 31)
      && (defined ==> IsP4Block(buf[..], enc, ds, BitSize(ds), excs, len) && len <= 8 * (num + 1))
      && (defined ==> PadClear(buf[..], BitSize(ds), num))
    ensures defined ==> inArr[..] == old(inArr[..])
  {
    hide Deltas, BitSize, IsP4Block, Sums, Replaced, PadClear;
    ghost var all := inArr[..];
    ghost var ds := Deltas(all[..num]);
    Delta(inArr, num);
    DeltasInPlace(inArr[..], all, num);
    var bitSize := GetBitSize(inArr, num);
    defined, len, excs := bitSize < 32, 0, [];
    if defined {
      len, excs := Encode(inArr, num, bitSize, buf, enc);
      P4BlockFits(ds);
      DeDelta(inArr, num);
      RestoredInPlace(all, num);
    }
  }

  lemma DeltasInPlace(s: seq<u32>, all: seq<u32>, num: nat)
    requires num <= |all| && s == Replaced(Deltas(all[..num]), all, num)
    ensures s[..num] == Deltas(all[..num])
  {
  }

  lemma RestoredInPlace(all: seq<u32>, num: nat)
    requires num <= |all|
    ensures Replaced(Sums(Deltas(all[..num]), 0), Replaced(Deltas(all[..num]), all, num), num) == all
  {
    hide Deltas, Sums;
    SumsOfDeltas(all[..num], 0);
  }

  // The packing part: fixed-width slots, and the exceptions as integers behind them
  method Encode(inArr: array<u32>, num: nat, bitSize: nat, buf: array<u8>, enc: VarintEncoder)
    returns (excepts: nat, ghost excs: seq<u32>)
    requires 1 <= num <= BLOCK_SIZE && num <= inArr.Length && 8 * (num + 1) <= buf.Length
    requires forall v: u32 :: |enc(v)| <= 5
    requires bitSize == BitSize(inArr[..num]) <= 31
    modifies buf
    ensures IsP4Block(buf[..], enc, inArr[..num], bitSize, excs, excepts) && PadClear(buf[..], bitSize, num)
    ensures excepts <= 8 * (num + 1)
    ensures inArr[..] == old(inArr[..])
  {
    hide Pow2, SlotBits, PackedBytes, WordsEnd, PartialP4, OredAt, BitSize, HasAt, IsP4Block, PadClear;
    hide Exceptions, IsException;
    ghost var ds := inArr[..num];
    P4BlockFits(ds);
    EntryMask(bitSize);
    var excMin: u32 := Pow2(bitSize) - 1;
    var lastIdx: int := -1;
    var idx := 0;
    ghost var xs: seq<nat> := [];
    excs := [];
    excepts := StartBlock(num, bitSize, buf, enc, ds);
    for j := 0 to num
      invariant idx == j && xs == Exceptions(ds, bitSize, j) && lastIdx == LastOf(xs)
      invariant PartialP4(buf[..], enc, ds, bitSize, xs, excs, j, 0, excepts) && PadClear(buf[..], bitSize, num)
      invariant excepts <= 1 + PackedBytes(bitSize, num) + 5 * |xs|
    {
      ghost var s := buf[..];
      P4OpenSlotFits(s, enc, ds, bitSize, xs, excs, j, excepts);
      FewerExceptions(ds, bitSize, j + 1, num);
      NextException(ds, bitSize, j);
      if inArr[j] > excMin || idx - lastIdx >= excMin {
        excepts := PutException(inArr[j], idx, lastIdx, bitSize, buf, excepts, enc, ds, xs, excs);
        lastIdx := idx + 1;
        xs, excs := xs + [j + 1], excs + [ds[j]];
      } else {
        WriteTo(inArr[j], buf, 1, bitSize, idx + 1, num);
        P4NormalKept(s, buf[..], enc, ds, bitSize, xs, excs, j, excepts);
      }
      idx := idx + 1;
    }
    ghost var s := buf[..];
    P4OpenSlotFits(s, enc, ds, bitSize, xs, excs, num, excepts);
    WriteEnd(buf, excMin, lastIdx, bitSize, xs, num);
    P4EndKept(s, buf[..], enc, ds, bitSize, xs, excs, excepts);
  }

  // An exception: the link in the open slot, and the integer behind the others
  method PutException(v: u32, idx: nat, lastIdx: int, bitSize: nat, buf: array<u8>, excepts: nat,
                      enc: VarintEncoder, ghost ds: seq<u32>, ghost xs: seq<nat>, ghost excs: seq<u32>)
    returns (end: nat)
    requires idx < |ds| <= BLOCK_SIZE && v == ds[idx] && xs == Exceptions(ds, bitSize, idx)
    requires 1 <= bitSize <= 31 && WordsEnd(1, bitSize, |ds|) <= buf.Length
    requires lastIdx == LastOf(xs) && OpenSlot(xs) <= idx && 0 <= idx - lastIdx < Pow2(bitSize)
    requires PartialP4(buf[..], enc, ds, bitSize, xs, excs, idx, 0, excepts)
    requires excepts + |enc(v)| <= buf.Length && PadClear(buf[..], bitSize, |ds|)
    modifies buf
    ensures end == excepts + |enc(v)| && PadClear(buf[..], bitSize, |ds|)
    ensures PartialP4(buf[..], enc, ds, bitSize, xs + [idx + 1], excs + [v], idx + 1, 0, end)
  {
    hide Pow2, SlotBits, PackedBytes, WordsEnd, PartialP4, OredAt, HasAt, Exceptions, OpenSlot, PadClear;
    ghost var s := buf[..];
    WriteLink(buf, idx, lastIdx, bitSize, xs, |ds|);
    ghost var s' := buf[..];
    end := VarintEncode(v, buf, excepts, enc);
    P4ExceptionWritten(s, s', buf[..], enc, ds, bitSize, xs, excs, idx, excepts);
    PadAfterSlot(s, s', bitSize, |ds|, OpenSlot(xs), idx - lastIdx);
    P4ExceptionsBehind(s, enc, ds, bitSize, xs, excs, idx, excepts);
    PadOfSameBytes(s', buf[..], bitSize, |ds|, excepts);
  }

  lemma NextException(ds: seq<u32>, w: nat, j: nat)
    requires j < |ds|
    ensures var xs := Exceptions(ds, w, j);
      && Exceptions(ds, w, j + 1)
           == (if ds[j] > Pow2(w) - 1 || j - LastOf(xs) >= Pow2(w) - 1 then xs + [j + 1] else xs)
      && LastOf(xs + [j + 1]) == j + 1
  {
  }

  // The same steps with the clear bits
  lemma P4NormalKept(s: seq<u8>, s': seq<u8>, enc: VarintEncoder, ds: seq<u32>, w: nat,
                     xs: seq<nat>, excs: seq<u32>, j: nat, e: nat)
    requires j < |ds| && PartialP4(s, enc, ds, w, xs, excs, j, 0, e) && PadClear(s, w, |ds|)
    requires ds[j] < Pow2(w) && OredAt(s, s', 8 + SlotBits(w, j + 1), w, ds[j])
    ensures PartialP4(s', enc, ds, w, xs, excs, j + 1, 0, e) && PadClear(s', w, |ds|)
  {
    hide *;
    P4NormalWritten(s, s', enc, ds, w, xs, excs, j, e);
    PadAfterSlot(s, s', w, |ds|, j + 1, ds[j]);
  }

  lemma P4EndKept(s: seq<u8>, s': seq<u8>, enc: VarintEncoder, ds: seq<u32>, w: nat,
                  xs: seq<nat>, excs: seq<u32>, e: nat)
    requires 1 <= |ds| <= BLOCK_SIZE && xs == AllExceptions(ds, w)
    requires PartialP4(s, enc, ds, w, xs, excs, |ds|, 0, e) && PadClear(s, w, |ds|)
    requires EndMark(xs, w) < Pow2(w) <= 0x8000_0000 && OpenSlot(xs) <= |ds|
    requires OredAt(s, s', 8 + SlotBits(w, OpenSlot(xs)), w, EndMark(xs, w))
    ensures IsP4Block(s', enc, ds, w, excs, e) && PadClear(s', w, |ds|)
  {
    hide *;
    P4EndWritten(s, s', enc, ds, w, xs, excs, e);
    PadAfterSlot(s, s', w, |ds|, OpenSlot(xs), EndMark(xs, w));
  }

  lemma P4ExceptionsBehind(s: seq<u8>, enc: VarintEncoder, ds: seq<u32>, w: nat,
                           xs: seq<nat>, excs: seq<u32>, j: nat, e: nat)
    requires PartialP4(s, enc, ds, w, xs, excs, j, 0, e)
    ensures 1 + PackedBytes(w, |ds|) <= e <= |s|
  {
    hide PackedBytes, EncodeAll, Holds;
  }

  // The width byte and the cleared slots
  method StartBlock(num: nat, bitSize: nat, buf: array<u8>, ghost enc: VarintEncoder, ghost ds: seq<u32>)
    returns (excepts: nat)
    requires 1 <= bitSize <= 31 && |ds| == num && WordsEnd(1, bitSize, num) <= buf.Length
    modifies buf
    ensures excepts == 1 + PackedBytes(bitSize, num)
    ensures PartialP4(buf[..], enc, ds, bitSize, [], [], 0, 0, excepts) && PadClear(buf[..], bitSize, num)
  {
    hide SlotBits, PackedBytes, PartialP4, PadClear;
    PackedBytesProduct(bitSize, num);
    var excOft := (bitSize * (num + 1) + 7) / 8;
    ClearedWords(bitSize, num);
    buf[0] := bitSize;
    ClearWords(buf, (excOft + 3) / 4);
    P4Empty(buf[..], enc, ds, bitSize);
    PadOfZeros(buf[..], bitSize, num);
    excepts := 1 + excOft;
  }

  lemma EntryMask(w: nat)
    requires 1 <= w <= 31
    ensures 1 <= Pow2(w) <= 0x8000_0000
  {
    Pow2Values();
    Pow2Monotone(w, 31);
  }

  // The cleared words are those that the slots lie in.
  lemma ClearedWords(w: nat, n: nat)
    ensures 1 + 4 * ((PackedBytes(w, n) + 3) / 4) == WordsEnd(1, w, n)
    ensures PackedBytes(w, n) <= 4 * ((PackedBytes(w, n) + 3) / 4)
  {
  }

  // The round trip on arrays, for every length that is not a multiple of 32: the list comes
  // back, with the position after the block, exactly when the width is at most 30, or is 31
  // and no difference needs all 32 bits, and the buffer holds whole groups at that width.
  method CompressAndRestore(inArr: array<u32>, num: nat, buf: array<u8>, out: array<u32>,
                            enc: VarintEncoder, dec: VarintDecoder)
    returns (defined: bool, ok: bool, len: nat, end: nat)
    requires 1 <= num <= BLOCK_SIZE && num % 32 != 0 && num <= inArr.Length
    requires VarintPair(enc, dec)
    requires forall k :: 0 <= k < num ==> Deltas(inArr[..num])[k] != 0
    requires 8 * (num + 1) <= buf.Length
    requires 32 * (num / 32 + 1) <= out.Length && out != inArr
    modifies inArr, buf, out
    ensures var docs := old(inArr[..num]);
      && (defined <==> BitSize(Deltas(docs)) <= 31)
      && (ok <==> (CoversGroups(buf.Length, BitSize(Deltas(docs)), num)
                   && (BitSize(Deltas(docs)) <= 30
                       || (defined && forall k :: 0 <= k < num ==> Deltas(docs)[k] < 0x8000_0000))))
      && (ok ==> out[..num] == docs && end == len && inArr[..] == old(inArr[..]))
  {
    hide Deltas, BitSize, AllExceptions, P4Decode, CoversGroups;
    ghost var docs := inArr[..num];
    ghost var excs;
    defined, len, excs := Compress(inArr, num, buf, enc);
    ok, end := false, 0;
    if defined {
      BlockStart(buf[..], enc, Deltas(docs), BitSize(Deltas(docs)), excs, len);
      hide IsP4Block, VarintPair;
      ok, end := Uncompress(buf, num, out, dec);
      P4DecodeInverts(enc, dec, buf[..], docs, BitSize(Deltas(docs)), excs, len, old(out[num]));
      assert buf[0] == BitSize(Deltas(docs));
      CoversInNumbers(buf.Length, BitSize(Deltas(docs)), num);
      if BitSize(Deltas(docs)) == 31 { NoExceptionsAt31(Deltas(docs)); }
    }
  }

  lemma NoExceptionsAt31(ds: seq<u32>)
    requires |ds| <= BLOCK_SIZE
    ensures AllExceptions(ds, 31) == [] <==> forall k :: 0 <= k < |ds| ==> ds[k] < 0x8000_0000
  {
    ExceptionsAt31(ds, |ds|);
  }

  lemma BlockStart(s: seq<u8>, enc: VarintEncoder, ds: seq<u32>, w: nat, excs: seq<u32>, e: nat)
    requires IsP4Block(s, enc, ds, w, excs, e)
    ensures |s| >= 1 && s[0] == w && 1 <= w <= 31
  {
  }

  // ---- decoding

  // Decodes a block into out[0 .. num-1] and finds its end. The result is false where the
  // source has no defined course: groups or exceptions that end beyond the buffer, or a
  // position out of range.
  method Uncompress(cmpData: array<u8>, num: nat, out: array<u32>, dec: VarintDecoder)
    returns (ok: bool, end: nat)
    requires 1 <= num <= BLOCK_SIZE && 32 * (num / 32 + 1) <= out.Length
    requires cmpData.Length >= 1
    modifies out
    ensures var r := P4Decode(dec, cmpData[..], num, old(out[num]));
      && var w := if 1 <= cmpData[0] <= 31 then cmpData[0] as int else 32;
      && (ok <==> r.Some? && 1 + 4 * (w * ((num + 31) / 32)) <= cmpData.Length
                  && 1 + (w * (num + 1) + 7) / 8 <= cmpData.Length)
      && (ok ==> out[..num] == r.value.0 && end == r.value.1)
  {
    hide Restore, AsSigned, Sums, P4Slots, PackedBytes;
    var bitSize: nat := cmpData[0];
    PackedBytesProduct(bitSize, num);
    var excOft := (bitSize * (num + 1) + 7) / 8;
    CoversInNumbers(cmpData.Length, UnpackedWidth(bitSize), num);
    if !CoversGroups(cmpData.Length, UnpackedWidth(bitSize), num) { return false, 0; }
    UnpackSlots(cmpData, num, UnpackedWidth(bitSize), out);
    ok, end := PutExceptionsBack(cmpData, num, 1 + excOft, out, dec);
    if ok { SumDown(out, num); }
  }

  // The unpacker reads whole groups of 32 slots, and the packed area ends no later than
  // slot num.
  predicate CoversGroups(len: nat, w: nat, num: nat) {
    && 1 + 4 * (w * ((num + 31) / 32)) <= len
    && 1 + PackedBytes(w, num) <= len
  }

  lemma CoversInNumbers(len: nat, w: nat, num: nat)
    requires 1 <= w <= 32
    ensures CoversGroups(len, w, num)
       <==> 1 + 4 * (w * ((num + 31) / 32)) <= len && 1 + (w * (num + 1) + 7) / 8 <= len
  {
    PackedBytesProduct(w, num);
  }

  // The buffer documented for compression is enough to decompress from exactly when its
  // 8 bytes per slot hold the whole groups.
  lemma DocumentedBufferCovers(w: nat, num: nat)
    requires 1 <= w <= 31 && num >= 1
    ensures CoversGroups(8 * (num + 1), w, num) <==> 4 * (w * ((num + 31) / 32)) < 8 * (num + 1)
  {
    hide SlotBits;
    SlotBitsProduct(w, num + 1);
    MulMonotone(w, 31, num + 1);
    PackedWithin(SlotBits(w, num + 1), num);
  }

  lemma PackedWithin(bits: nat, num: nat)
    requires bits <= 31 * (num + 1) && num >= 1
    ensures 1 + (bits + 7) / 8 <= 8 * (num + 1)
  {
  }

  // It is at any width for 15 values and more, and is not for one value of width 4.
  lemma DocumentedBufferEnough(w: nat, num: nat)
    requires 1 <= w <= 31 && 15 <= num <= BLOCK_SIZE
    ensures CoversGroups(8 * (num + 1), w, num)
  {
    hide PackedBytes;
    MulMonotone(w, 31, (num + 31) / 32);
    GroupsOf31(num);
    assert 4 * (w * ((num + 31) / 32)) == 4 * (w * ((num + 31) / 32));
    DocumentedBufferCovers(w, num);
  }

  lemma DocumentedBufferTooShort()
    ensures !CoversGroups(8 * (1 + 1), 4, 1)
  {
  }

  lemma GroupsOf31(num: nat)
    requires num >= 15
    ensures 4 * (31 * ((num + 31) / 32)) < 8 * (num + 1)
  {
  }

  // num is rounded up to a multiple of 32, so slot num itself stays unread when num is one.
  method UnpackSlots(cmpData: array<u8>, num: nat, bitSize: nat, out: array<u32>)
    requires 1 <= num <= BLOCK_SIZE && 1 <= bitSize <= 32
    requires 32 * (num / 32 + 1) <= out.Length && CoversGroups(cmpData.Length, bitSize, num)
    modifies out
    ensures out[..num + 1] == P4Slots(cmpData[..], bitSize, num, old(out[num]))
  {
    hide StreamSlot, PackedBytes;
    Unpack(out, cmpData, 1, bitSize, (num + 31) / 32 * 32);
  }

  // Follows the chain from slot 0, replacing each visited slot by the next integer.
  method PutExceptionsBack(cmpData: array<u8>, num: nat, start: nat, out: array<u32>, dec: VarintDecoder)
    returns (ok: bool, excepts: nat)
    requires 1 <= num < out.Length && num <= BLOCK_SIZE
    modifies out
    ensures var slots := old(out[..num + 1]);
      match Restore(dec, slots, AsSigned(slots[0]), cmpData[..], start)
      case None => !ok
      case Some((all, e)) => ok && out[..num + 1] == all && excepts == e
  {
    hide Restore, AsSigned, Add32;
    ghost var slots := out[..num + 1];
    excepts := start;
    var excOft := AsSigned(out[0]);
    while excOft <= num
      invariant Restore(dec, out[..num + 1], excOft, cmpData[..], excepts)
             == Restore(dec, slots, AsSigned(slots[0]), cmpData[..], start)
      decreases cmpData.Length - excepts
    {
      ghost var before := out[..num + 1];
      RestoreOnce(dec, before, excOft, cmpData[..], excepts);
      var (value, next) := dec(cmpData[..], excepts);
      if excOft < 0 || !(excepts < next <= cmpData.Length) { return false, excepts; }
      var excNext := Add32(out[excOft], 1);
      out[excOft] := value;
      assert out[..num + 1] == before[excOft := value];
      excepts := next;
      excOft := AsSigned(excOft + excNext);
    }
    RestoreOnce(dec, out[..num + 1], excOft, cmpData[..], excepts);
    ok := true;
  }

  // Drops slot 0 and sums the others in place, four at a time, each result one place below
  // the difference it ends with.
  method SumDown(out: array<u32>, num: nat)
    requires num < out.Length
    modifies out
    ensures out[..num] == Sums(old(out[1..num + 1]), 0)
  {
    hide Sums, Replaced, Add32, Total;
    ghost var all := out[..];
    ghost var ds := all[1..num + 1];
    ghost var docs := Sums(ds, 0);
    var total: u32 := 0;
    var alignNum := num / 4 * 4;
    var i := 0;
    NothingReplaced(docs, all);
    NoTotal(ds);
    while i < alignNum
      invariant i <= alignNum && i % 4 == 0
      invariant total == Total(ds, 0, i)
      invariant out[..] == Replaced(docs, all, i)
    {
      Advance4(docs, all, i);
      FourSums(ds, i);
      var arr0, arr1, arr2, arr3 := out[i + 1], out[i + 2], out[i + 3], out[i + 4];
      assert out[..][i + 1..i + 5] == all[i + 1..i + 5];
      assert arr0 == ds[i] && arr1 == ds[i + 1] && arr2 == ds[i + 2] && arr3 == ds[i + 3];
      var half1 := Add32(arr0, arr1);
      var half2 := Add32(arr2, arr3);
      out[i] := Add32(total, arr0);
      out[i + 1] := Add32(total, half1);
      out[i + 2] := Add32(Add32(total, half1), arr2);
      out[i + 3] := Add32(Add32(total, half1), half2);
      total := Add32(total, Add32(half1, half2));
      i := i + 4;
    }
    while i < num
      invariant alignNum <= i <= num
      invariant total == Total(ds, 0, i)
      invariant out[..] == Replaced(docs, all, i)
    {
      Advance(docs, all, i);
      OneSum(ds, i);
      var arr0 := out[i + 1];
      assert arr0 == out[..][i + 1];
      out[i] := Add32(total, arr0);
      total := Add32(total, arr0);
      i := i + 1;
    }
    AllReplaced(docs, all, out[..]);
  }

  lemma NoTotal(ds: seq<u32>)
    ensures Total(ds, 0, 0) == 0
  {
  }

  lemma OneSum(ds: seq<u32>, i: nat)
    requires i < |ds|
    ensures Sums(ds, 0)[i] == Total(ds, 0, i + 1) == Add32(Total(ds, 0, i), ds[i])
  {
  }

  lemma AllReplaced(docs: seq<u32>, all: seq<u32>, s: seq<u32>)
    requires |docs| <= |all| && s == Replaced(docs, all, |docs|)
    ensures s[..|docs|] == docs
  {
  }
}
