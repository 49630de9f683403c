# Verified models of the repository's cores

A Dafny model of six parts of the repository, with proofs of what they promise.

- **Block codec** (`p4delta/`): lists of up to 127 unsigned 32-bit values are turned into differences, given
  a bit width that covers nine tenths of them, packed into slots of that width across word boundaries, and the
  values that do not fit are kept as exceptions on a chain threaded through the slots. `Bits` and `ByteStream`
  define words and bit streams; `DeltaCoding`, `ExceptionChain` and `BlockFormat` say what a block means;
  `PackedMemory` and `Unpackers` are the writes and the 32 unrolled readers; `IndexCompressionCodec` is the older
  codec's object and `P4Delta`, with `P4DeltaBlock`, the improved one.
- **Route search** (`the_art_of_c++/deep_first.cpp`, `node_removed.cpp`, `least_cost.cpp`): backtracking over a
  flight database with skip flags and a stack. `Routes` holds the search's invariant, `DeepFirst`, `NodeRemoval`
  and `LeastCost` the objects and the two drivers.
- **Reference-counting collector** (`the_art_of_c++/gc.h`, `gcthrd.h`): `GcList` is the list both share,
  `GcSequential` the collector with pointer objects, `GcThreaded` the one with a background thread under one mutex,
  as a state machine whose steps interleave freely, `GcAtomic` what an operation of it amounts to, `GcMutex` how the
  threads come by that mutex, `GcLink`, `GcComplete` and `GcGuarded` what is kept when they do so in turn, and `GcRaces`
  what can happen when they do not.
- **Consistent-hash ring** (`consistent_hash/chash.cpp`): `HashRing`, for every hash function.
- **Two tries** (`list_struct_trie.cpp`, `array_struct_trie.cpp`): `TrieCounts` says what the counts mean,
  `ArrayTrie` and `ListTrie` are the two heap shapes, `TrieAgreement` compares them.
- **Translator** (`the_art_of_c++/trans.cpp`): `Tokens` is the token reader's meaning, `TokenStarts` and
  `TextModes` read off the characters where tokens start and what each is part of, `TranslatorLoop` is the reader
  and the copying loop.

Conventions. Words are integers below 2^8 or 2^32 with explicit wrap-around; shifts and masks are defined bit by
bit. Buffers are arrays of bytes, and word pointers into them are little-endian and unaligned. `float` and `ceil`
on the codec's sizes are exact there and read as (x+7)/8; `(int)(n*0.9)` is 9n/10 for n up to 127. A result
`defined`, `ok` or `Endless` marks where the source has no defined behaviour or does not return.

Where code and documentation, or an expectation, part ways, the code is followed:

- Width 32 (undefined shift) and width 31 with exceptions (signed wrap-around) do not round-trip. The exact
  condition is `BlockFormat.RoundTripExactly`.
- `p4d_uncompress` unpacks n rounded up to a multiple of 32 although its header promises n + 1 rounded up: for
  multiples of 32 slot n is never unpacked (`P4DeltaBlock.P4DecodeAnyMemory`). It also reads whole groups of
  words, which can lie beyond the buffer documented for compression (`P4Delta.DocumentedBufferCovers`).
- Removing a server also empties hash points that another server has taken since, and with them the whole ring if
  the other has no hash point of its own (`HashRing.CollisionEmptiesRing`).
- The node-removal loop never ends for exactly the databases of `NodeRemoval.NeverEnds`: a city with an empty name
  is reached (`NodeRemoval.NeverStops`, `NodeRemoval.TurnsEnd`, `NodeRemoval.ReportRoutes`).
- The route that the least-cost search calls optimal is the shortest of those it found, which share no flight and to
  which none can be added (`LeastCost.FindOptimal`); such routes need not include a shortest one
  (`LeastCost.ShortestCanBeMissed`).
- The mutex is made by the first constructor after an unprotected test, and the collector's promises hold for
  exactly the entries that keep `GcMutex.Guard` (`GcLink.GuardedIsMachine`, `GcRaces.BreakingTheGuard`). Without it
  a block can be freed under a live pointer (`GcRaces.FreedUnderPointer`, `GcRaces.BareCollection`).
- A collector thread is not always running while pointers exist; when it is lost is `GcThreaded.LeftAloneExactly`.
- The token reader emits one extra character for some texts that end in an escaped quote (`Tokens.TokensJoin`),
  and does not see every closed string closed; which ones it sees is `TextModes.ClosingQuote`.

## Model

| member | source | states |
|---|---|---|
| `BlockFormat.RoundTripExactly` | p4delta/IndexCompression.cpp:54-129 | A compressed list of 1..127 values decodes to the list displaced by the running total if and only if the chosen width is at most 30, or is 31 and no difference needs all 32 bits |
| `BlockFormat.DecodeInvertsEncode` | p4delta/IndexCompression.cpp:71-129 | For every width 1..31, whatever was chosen: decoding a block yields the displaced list if the width is at most 30 or there are no exceptions, and runs off the list otherwise; with a cleared total it is the list itself |
| `BlockFormat.DecodeBlock` | p4delta/IndexCompression.cpp:71-108 | The same for the differences, before they are taken from a list of values |
| `BlockFormat.Width31Fails` | p4delta/IndexCompression.cpp:94-102 | A concrete list that is given width 31 and does not come back, because a signed position wraps |
| `BlockFormat.BlockInNumbers` | p4delta/IndexCompression.cpp:170-212 | The bytes of a block: width, ceil(w(n+1)/8) bytes of slots as specified in numbers, and four bytes for each exception |
| `BlockFormat.BlockIsSettled` | p4delta/IndexCompression.cpp:170-212 | Two blocks of one list at one width, the bits past the slots being zero, are the same bytes |
| `BlockFormat.DecodeUnchained` | p4delta/IndexCompression.cpp:71-107 | Headers of every width from 1 to 32 are decoded: where slot 0 leads past the list, to the running totals of the slots |
| `IndexCompressionCodec.CompressAndRestore` | p4delta/IndexCompression.cpp:54-107 | On the object: compression then decompression restores the array exactly under the condition above, within the documented number of bytes |
| `IndexCompressionCodec.IndexCompression.constructor` | p4delta/IndexCompression.h:65-74 | The fixed sizes of the four buffers and the cleared running totals |
| `IndexCompressionCodec.IndexCompression.Compression` | p4delta/IndexCompression.cpp:54-63 | The array is left holding its differences, the buffer holds their block at the chosen width and zeros after it, and the length is the block's; nothing past the list changes |
| `IndexCompressionCodec.IndexCompression.Decompression` | p4delta/IndexCompression.cpp:71-107 | The result list holds exactly what the block decodes to and the running total ends at its last value; all reads and writes stay inside the buffers, or the failure is reported; headers of width 32 and links that wrap back to an earlier slot included |
| `IndexCompressionCodec.IndexCompression.UnpackSlots` | p4delta/IndexCompression.cpp:74-90 | The padded copy makes whole-group unpacking deliver exactly slots 0..n of the block |
| `IndexCompressionCodec.IndexCompression.PutExceptionsBack` | p4delta/IndexCompression.cpp:92-104 | The loop puts the exceptions back over the slots it visits, as specified for any contents, or reports that it leaves the slots or the buffer |
| `IndexCompressionCodec.IndexCompression.GetDeltaList` | p4delta/IndexCompression.cpp:110-121 | The in-place loop turns the first n values into their differences and touches nothing else |
| `IndexCompressionCodec.IndexCompression.DeDelta` | p4delta/IndexCompression.cpp:123-130 | The in-place loop turns differences into running totals and leaves the last in the object |
| `IndexCompressionCodec.IndexCompression.GetBits` | p4delta/IndexCompression.cpp:150-160 | The bit length, 1 for zero, at most 32 |
| `IndexCompressionCodec.IndexCompression.GetBitSize` | p4delta/IndexCompression.cpp:132-147 | The histogram loop finds the least width that holds nine tenths of the differences, rounded down: that many fit it, and fewer the next smaller one |
| `IndexCompressionCodec.IndexCompression.Encode` | p4delta/IndexCompression.cpp:170-212 | Into a zeroed buffer and for every width 1..31 the loop writes a correct block: packed slots, exception chain, end mark, exceptions; every other bit stays zero |
| `IndexCompressionCodec.IndexCompression.AddExcept` | p4delta/IndexCompression.cpp:229-235 | Stores an exception's four bytes and advances the length |
| `BlockFormat.BlockFits` | p4delta/IndexCompression.cpp:132-212 | A block at a chosen width up to 31 is no longer than 1 + packed bytes + 4((n - quota) + (n+1)/2^w), hence at most 8(n+1) bytes, even with five bytes an exception |
| `ExceptionChain.ExceptionBound` | p4delta/IndexCompression.cpp:132-212 | With the chosen width there are at most n - quota + (n+1)/2^w exceptions |
| `ExceptionChain.ForcedExceptionsSpread` | p4delta/IndexCompression.cpp:185-197 | Each forced exception uses up 2^w slots of the chain |
| `ExceptionChain.ExceptionsShape` | p4delta/IndexCompression.cpp:181-203 | Exception slots increase, and every link and the head fit a slot, at every point of the encoding loop |
| `ExceptionChain.NarrowUnlessException` | p4delta/IndexCompression.cpp:185-203 | What is packed into a slot as a value fits it |
| `ExceptionChain.ExceptionInNumbers` | p4delta/IndexCompression.cpp:185-185 | A difference is an exception exactly if it needs more than w bits or 2^w - 1 slots or more would have to be skipped |
| `ExceptionChain.HoldsInNumbers` | p4delta/IndexCompression.cpp:185-211 | Slot 0 holds the first exception's slot, or the low byte of the mask; each exception's slot the gap to the next one, less one, and the last the mask; every other slot its difference |
| `ExceptionChain.HoldsNormal` | p4delta/IndexCompression.cpp:200-203 | Writing an ordinary difference keeps what is held and adds it |
| `ExceptionChain.HoldsException` | p4delta/IndexCompression.cpp:185-199 | Linking and appending an exception keeps what is held and adds it |
| `ExceptionChain.HoldsClosed` | p4delta/IndexCompression.cpp:204-211 | Writing the end mark closes the chain |
| `ExceptionChain.LinkLeads` | p4delta/IndexCompression.cpp:92-102 | One link leads from an exception's slot to the next one's; the end mark leads past the block, and out of the signed range exactly at width 31 |
| `ExceptionChain.WalkFindsExceptions` | p4delta/IndexCompression.cpp:92-102 | The decoder's walk visits exactly the encoder's exception slots in order and stops, for every width up to 30 and for blocks without exceptions at 31; otherwise it runs off |
| `ExceptionChain.WalkInside` | p4delta/IndexCompression.cpp:94-102 | Every position the walk visits is a slot of the block, for any contents |
| `ExceptionChain.RestoreVisits` | p4delta/IndexCompression.cpp:92-104 | Unless a link leads back to an earlier slot, putting the exceptions back changes only slots of the walk, and is possible only if the walk stays in the signed range |
| `ExceptionChain.RestoreReads` | p4delta/IndexCompression.cpp:92-104 | and if the exceptions can be read it puts them over exactly the visited slots, in order, and ends where the last one ends |
| `ExceptionChain.PatchInvertsEncoding` | p4delta/IndexCompression.cpp:92-104 | Putting the exceptions back over the visited slots recovers every difference |
| `ExceptionChain.ExceptionsAt31` | p4delta/IndexCompression.cpp:185-185 | At width 31 exceptions are exactly the differences that need all 32 bits |
| `Bits.Modular32` | p4delta/IndexCompression.cpp:116-128 | Addition and subtraction are those of integers mod 2^32 |
| `DeltaCoding.SumsOfDeltas` | p4delta/IndexCompression.cpp:110-130 | Summing the differences restores the list, displaced by the starting total, mod 2^32 |
| `DeltaCoding.DeltasOfSums` | p4delta/IndexCompression.cpp:110-130 | The differences of the sums are the differences |
| `DeltaCoding.DeltasInNumbers` | p4delta/IndexCompression.cpp:110-121 | Each difference added to the value before gives the value, mod 2^32, and is the true difference where the list does not fall |
| `DeltaCoding.SumsInNumbers` | p4delta/IndexCompression.cpp:123-130 | Each decoded value is the starting total and the sum of the differences so far, mod 2^32 |
| `DeltaCoding.NineTenthsFit` | p4delta/IndexCompression.cpp:132-147 | The chosen width is the one width that nine tenths of the differences, rounded down, fit, and fewer the next smaller one; a single difference fits it and not the next smaller one |
| `DeltaCoding.BitSizeUnique` | p4delta/IndexCompression.cpp:132-147 | Only one width does |
| `DeltaCoding.FittingOrTooWide` | p4delta/IndexCompression.cpp:132-147 | Every difference either fits a width or is too wide for it |
| `DeltaCoding.LengthIsLeastWidth` | p4delta/IndexCompression.cpp:150-160 | A value fits w bits exactly when its bit length is at most w |
| `PackedMemory.WriteTo` | p4delta/IndexCompression.cpp:215-227 | The value's bits are or-ed into its slot, across two words where it straddles them, and no other bit changes |
| `PackedMemory.OrAcross` | p4delta/IndexCompression.cpp:221-226 | The one or two word updates or in exactly the value's bits |
| `PackedMemory.OrHead` | p4delta/IndexCompression.cpp:187-190 | The first link is or-ed into slot 0 |
| `PackedMemory.OrHeadByte` | p4delta/IndexCompression.cpp:208-211 | A block without exceptions gets the low byte of the mask in slot 0 |
| `PackedMemory.WriteLink` | p4delta/IndexCompression.cpp:187-195 | The link goes into the open slot: the head, or the previous exception's |
| `PackedMemory.WriteEnd` | p4delta/IndexCompression.cpp:204-211 | The end mark goes into the open slot |
| `PackedMemory.StoreWord` | p4delta/IndexCompression.cpp:229-235 | An unaligned little-endian store |
| `BlockFormat.OredIntoSlot` | p4delta/IndexCompression.cpp:215-227 | Or-ing a value into an empty slot makes that slot read the value and every other slot read as before |
| `BlockFormat.OredLeavesRest` | p4delta/IndexCompression.cpp:215-235 | A slot's read-modify-write changes neither the width byte nor any exception byte, whatever word they share with it |
| `BlockFormat.ExceptionAppended` | p4delta/IndexCompression.cpp:229-235 | Appending an exception keeps the slots and the earlier exceptions and is read back |
| `BlockFormat.CopiedSlot` | p4delta/IndexCompression.cpp:82-90 | Slots copied to the start of the padded buffer read the same |
| `ByteStream.WordBits` | p4delta/IndexCompression.cpp:76-90 | A little-endian word holds the stream's bits in order |
| `ByteStream.PutWordBits` | p4delta/IndexCompression.cpp:229-235 | A word store sets its 32 bits of the stream and no others |
| `Unpackers.LineReadsField` | p4delta/IndexCompression.cpp:246-1555 | An unpacker statement whose constants address bits p .. p+w-1 of the words computes exactly that field |
| `Unpackers.Unpack1` | p4delta/IndexCompression.cpp:246-284 | The 32 statements of unpack_1: statement k addresses bits 1k .. 1k+0 of its group |
| `Unpackers.Unpack2` | p4delta/IndexCompression.cpp:287-325 | The 32 statements of unpack_2: statement k addresses bits 2k .. 2k+1 of its group |
| `Unpackers.Unpack3` | p4delta/IndexCompression.cpp:328-366 | The 32 statements of unpack_3: statement k addresses bits 3k .. 3k+2 of its group |
| `Unpackers.Unpack4` | p4delta/IndexCompression.cpp:369-407 | The 32 statements of unpack_4: statement k addresses bits 4k .. 4k+3 of its group |
| `Unpackers.Unpack5` | p4delta/IndexCompression.cpp:410-448 | The 32 statements of unpack_5: statement k addresses bits 5k .. 5k+4 of its group |
| `Unpackers.Unpack6` | p4delta/IndexCompression.cpp:451-489 | The 32 statements of unpack_6: statement k addresses bits 6k .. 6k+5 of its group |
| `Unpackers.Unpack7` | p4delta/IndexCompression.cpp:492-530 | The 32 statements of unpack_7: statement k addresses bits 7k .. 7k+6 of its group |
| `Unpackers.Unpack8` | p4delta/IndexCompression.cpp:533-571 | The 32 statements of unpack_8: statement k addresses bits 8k .. 8k+7 of its group |
| `Unpackers.Unpack9` | p4delta/IndexCompression.cpp:574-612 | The 32 statements of unpack_9: statement k addresses bits 9k .. 9k+8 of its group |
| `Unpackers.Unpack10` | p4delta/IndexCompression.cpp:615-653 | The 32 statements of unpack_10: statement k addresses bits 10k .. 10k+9 of its group |
| `Unpackers.Unpack11` | p4delta/IndexCompression.cpp:656-694 | The 32 statements of unpack_11: statement k addresses bits 11k .. 11k+10 of its group |
| `Unpackers.Unpack12` | p4delta/IndexCompression.cpp:697-735 | The 32 statements of unpack_12: statement k addresses bits 12k .. 12k+11 of its group |
| `Unpackers.Unpack13` | p4delta/IndexCompression.cpp:738-776 | The 32 statements of unpack_13: statement k addresses bits 13k .. 13k+12 of its group |
| `Unpackers.Unpack14` | p4delta/IndexCompression.cpp:779-817 | The 32 statements of unpack_14: statement k addresses bits 14k .. 14k+13 of its group |
| `Unpackers.Unpack15` | p4delta/IndexCompression.cpp:820-858 | The 32 statements of unpack_15: statement k addresses bits 15k .. 15k+14 of its group |
| `Unpackers.Unpack16` | p4delta/IndexCompression.cpp:861-899 | The 32 statements of unpack_16: statement k addresses bits 16k .. 16k+15 of its group |
| `Unpackers.Unpack17` | p4delta/IndexCompression.cpp:902-940 | The 32 statements of unpack_17: statement k addresses bits 17k .. 17k+16 of its group |
| `Unpackers.Unpack18` | p4delta/IndexCompression.cpp:943-981 | The 32 statements of unpack_18: statement k addresses bits 18k .. 18k+17 of its group |
| `Unpackers.Unpack19` | p4delta/IndexCompression.cpp:984-1022 | The 32 statements of unpack_19: statement k addresses bits 19k .. 19k+18 of its group |
| `Unpackers.Unpack20` | p4delta/IndexCompression.cpp:1025-1063 | The 32 statements of unpack_20: statement k addresses bits 20k .. 20k+19 of its group |
| `Unpackers.Unpack21` | p4delta/IndexCompression.cpp:1066-1104 | The 32 statements of unpack_21: statement k addresses bits 21k .. 21k+20 of its group |
| `Unpackers.Unpack22` | p4delta/IndexCompression.cpp:1107-1145 | The 32 statements of unpack_22: statement k addresses bits 22k .. 22k+21 of its group |
| `Unpackers.Unpack23` | p4delta/IndexCompression.cpp:1148-1186 | The 32 statements of unpack_23: statement k addresses bits 23k .. 23k+22 of its group |
| `Unpackers.Unpack24` | p4delta/IndexCompression.cpp:1189-1227 | The 32 statements of unpack_24: statement k addresses bits 24k .. 24k+23 of its group |
| `Unpackers.Unpack25` | p4delta/IndexCompression.cpp:1230-1268 | The 32 statements of unpack_25: statement k addresses bits 25k .. 25k+24 of its group |
| `Unpackers.Unpack26` | p4delta/IndexCompression.cpp:1271-1309 | The 32 statements of unpack_26: statement k addresses bits 26k .. 26k+25 of its group |
| `Unpackers.Unpack27` | p4delta/IndexCompression.cpp:1312-1350 | The 32 statements of unpack_27: statement k addresses bits 27k .. 27k+26 of its group |
| `Unpackers.Unpack28` | p4delta/IndexCompression.cpp:1353-1391 | The 32 statements of unpack_28: statement k addresses bits 28k .. 28k+27 of its group |
| `Unpackers.Unpack29` | p4delta/IndexCompression.cpp:1394-1432 | The 32 statements of unpack_29: statement k addresses bits 29k .. 29k+28 of its group |
| `Unpackers.Unpack30` | p4delta/IndexCompression.cpp:1435-1473 | The 32 statements of unpack_30: statement k addresses bits 30k .. 30k+29 of its group |
| `Unpackers.Unpack31` | p4delta/IndexCompression.cpp:1476-1514 | The 32 statements of unpack_31: statement k addresses bits 31k .. 31k+30 of its group |
| `Unpackers.Unpack32` | p4delta/IndexCompression.cpp:1517-1555 | The 32 statements of unpack_32: statement k addresses bits 32k .. 32k+31 of its group |
| `Unpackers.UnpackLine` | p4delta/IndexCompression.cpp:7-40 | The dispatch table: each width has the statements of its own unpacker |
| `Unpackers.UnpackMask` | p4delta/IndexCompression.cpp:246-1555 | The mask constants are 2^w - 1 |
| `Unpackers.UnpackStatement` | p4delta/IndexCompression.cpp:246-1555 | Every statement of every unpacker computes slot k of the group, from the first w words only |
| `Unpackers.UnpackGroup` | p4delta/IndexCompression.cpp:246-1555 | The statements of one group store its 32 slots and nothing else |
| `Unpackers.Unpack` | p4delta/IndexCompression.cpp:246-1555 | For any number of whole groups an unpacker computes slot k = bits kw .. kw+w-1 of the word stream, and writes nothing else |
| `P4Delta.Delta` | p4delta/p4delta.cpp:22-49 | The loop unrolled by four computes the differences in place, for every length |
| `P4Delta.DeDelta` | p4delta/p4delta.cpp:54-90 | The loop unrolled by four, with its two tails, computes the running totals in place |
| `P4Delta.DeltaThenDeDelta` | p4delta/p4delta.cpp:22-90 | Differencing and summing in place restore the array exactly |
| `P4Delta.GetBitSize` | p4delta/p4delta.cpp:94-122 | For non-zero differences the histogram finds the same width as the older codec's |
| `P4Delta.ClearWords` | p4delta/p4delta.cpp:1655-1658 | The words the slots lie in are cleared, whatever the caller's buffer held |
| `P4Delta.Compress` | p4delta/p4delta.cpp:1639-1701 | The caller's buffer of 8(n+1) bytes gets a correct block, its length is returned, and the array is given back as it was |
| `P4Delta.Encode` | p4delta/p4delta.cpp:1641-1696 | The packing loop writes a correct block of at most 8(n+1) bytes |
| `P4Delta.PutException` | p4delta/p4delta.cpp:1662-1678 | An exception's link and bytes are written behind what is held so far |
| `P4Delta.Uncompress` | p4delta/p4delta.cpp:1708-1798 | The output holds what the block decodes to, and the end of the block is returned, exactly when there is such a decoding and the buffer holds the whole groups read; otherwise the failure is reported; every header and links that wrap back to an earlier slot included |
| `P4Delta.DocumentedBufferCovers` | p4delta/p4delta.cpp:1708-1752 | The buffer documented for compression, 8(n+1) bytes, is enough to decompress from exactly when its bytes hold the whole groups of 32 slots |
| `P4Delta.DocumentedBufferEnough` | p4delta/p4delta.cpp:1708-1752 | It is for 15 values and more at any width |
| `P4Delta.DocumentedBufferTooShort` | p4delta/p4delta.cpp:1708-1752 | It is not for one value of width 4 |
| `P4Delta.UnpackSlots` | p4delta/p4delta.cpp:1717-1752 | Only whole groups up to n are unpacked: slot n is missed when n is a multiple of 32 |
| `P4Delta.PutExceptionsBack` | p4delta/p4delta.cpp:1754-1767 | The loop decodes one integer for each slot it visits, as specified for any contents, or reports that it leaves the slots or the buffer |
| `P4Delta.SumDown` | p4delta/p4delta.cpp:1769-1795 | The unrolled in-place sum that drops slot 0 equals the plain running totals |
| `P4Delta.CompressAndRestore` | p4delta/p4delta.cpp:1639-1798 | For lengths that are not multiples of 32, compress then uncompress restores the array and returns the end of the block, exactly when the width is at most 30, or is 31 and no difference needs all 32 bits, and the buffer holds the whole groups read |
| `P4DeltaBlock.P4DecodeInverts` | p4delta/p4delta.cpp:1708-1798 | The same for any correct block, any width 1..31 and anything the output array held before |
| `P4DeltaBlock.P4BlockInNumbers` | p4delta/p4delta.cpp:1639-1701 | The bytes of a block: width, ceil(w(n+1)/8) bytes of slots as specified in numbers, and the bytes of each exception's integer |
| `P4DeltaBlock.P4DecodeUnchained` | p4delta/p4delta.cpp:1708-1798 | Every header is decoded, 0 and those above 31 as 32: where slot 0 leads past the list, to the running totals of the slots |
| `P4DeltaBlock.P4DecodeAnyMemory` | p4delta/p4delta.cpp:1717-1752 | Decoding is right whatever the output array held before if and only if n is not a multiple of 32, and the width is at most 30 or there are no exceptions |
| `P4DeltaBlock.MultipleOf32Fails` | p4delta/p4delta.cpp:1717-1752 | For every multiple of 32 some stale value makes the result wrong |
| `P4DeltaBlock.ReadsRow` | p4delta/p4delta.cpp:1758-1766 | A row of variable-length integers is read back one after the other, each inside the buffer, to its end, given an inverse pair |
| `P4DeltaBlock.P4BlockFits` | p4delta/p4delta.cpp:1639-1701 | With at most five bytes an exception a block is within 8(n+1) bytes for every width up to 31 |
| `Routes.MarkingCounts` | the_art_of_c++/deep_first.cpp:99-129 | Using a flight lowers the number of unused flights by one: the search's measure |
| `Routes.SearchFinds` | the_art_of_c++/deep_first.cpp:137-141 | A last flight to the destination completes a real route |
| `Routes.SearchAdvances` | the_art_of_c++/deep_first.cpp:144-148 | Taking a connection keeps the search's invariant |
| `Routes.SearchBacktracks` | the_art_of_c++/deep_first.cpp:149-154 | Backtracking from a city with nothing left keeps the search's invariant |
| `Routes.SearchFails` | the_art_of_c++/deep_first.cpp:133-155 | A search that ends at the origin with nothing left proves that no route exists |
| `Routes.RouteStaysExhausted` | the_art_of_c++/deep_first.cpp:133-155 | No route leads out of the cities that have been exhausted |
| `Routes.DeadEndsLeave` | the_art_of_c++/least_cost.cpp:192-198 | Backtracking gives up exactly the flight that led to the exhausted city |
| `Routes.NoneDirect` | the_art_of_c++/deep_first.cpp:137-141 | While a search is on, a city without an unused direct flight has none that it could have taken |
| `Routes.OrderAdvances` | the_art_of_c++/deep_first.cpp:144-148 | A connection taken is the first one left at its city, and stays so |
| `Routes.OrderFinds` | the_art_of_c++/deep_first.cpp:137-141 | and the last flight is the first direct one |
| `Routes.ListedFirst` | the_art_of_c++/deep_first.cpp:117-129 | A connection that stands before the one taken at its city has been used up |
| `Routes.NearestFirst` | the_art_of_c++/least_cost.cpp:150-174 | A nearer connection than the one taken at its city, or an equal one before it, has been used up |
| `Routes.RouteIsSettled` | the_art_of_c++/deep_first.cpp:133-155 | This settles the route: no other one is found in the same database |
| `Routes.ReportOfRoute` | the_art_of_c++/deep_first.cpp:70-93 | The report names the route's cities in order and its summed distance |
| `DeepFirst.Search.Match` | the_art_of_c++/deep_first.cpp:99-112 | Marks the first unused direct flight, if there is one |
| `DeepFirst.Search.Find` | the_art_of_c++/deep_first.cpp:117-129 | Marks the first unused connection, if there is one |
| `DeepFirst.Search.FindRoute` | the_art_of_c++/deep_first.cpp:133-155 | Terminates; finds a route over unused flights exactly when there is one: by the first connection left at each city, up to the first city with a direct flight, and then by the first of those; the flights used up off the route lead to exhausted cities and not to the destination |
| `DeepFirst.Search.FindRouteFrom` | the_art_of_c++/deep_first.cpp:133-155 | The recursion, from any intermediate state of the search |
| `DeepFirst.FoundIffReachable` | the_art_of_c++/deep_first.cpp:133-155 | The stack is not empty exactly when the destination is reachable by unused flights |
| `DeepFirst.Search.Route` | the_art_of_c++/deep_first.cpp:70-93 | The two loops report the stack's cities in travel order and the summed distance, and empty it |
| `DeepFirst.Search.ResetAllSkip` | the_art_of_c++/node_removed.cpp:168-171 | Every flight becomes unused, nothing else changes |
| `DeepFirst.Search.Remove` | the_art_of_c++/node_removed.cpp:174-179 | Exactly the flights between these cities lose their origin |
| `NodeRemoval.ReportRoutes` | the_art_of_c++/node_removed.cpp:209-227 | Unless a city without a name is reached without a flight into the destination and the destination is reached too, the loop ends and reports exactly one route for each city that flies to the destination and is the origin or reachable from it without a flight into the destination, each route being the one its search finds first |
| `NodeRemoval.NeverStops` | the_art_of_c++/node_removed.cpp:209-227 | In those databases there is a route again after any number of turns: the loop never ends |
| `NodeRemoval.RunTurns` | the_art_of_c++/node_removed.cpp:209-227 | and any number of turns are taken, each reporting the route found and removing its last hop |
| `NodeRemoval.TurnsAreSettled` | the_art_of_c++/node_removed.cpp:209-227 | The database settles every report and every removal: two runs of as many turns from it agree in all of them |
| `NodeRemoval.TurnsEnd` | the_art_of_c++/node_removed.cpp:209-227 | In all others there are no more turns than last hops: each takes at least one |
| `NodeRemoval.TurnsRemove` | the_art_of_c++/node_removed.cpp:209-227 | Whatever turns are taken, only last hops are removed |
| `NodeRemoval.Turn` | the_art_of_c++/node_removed.cpp:210-227 | One turn: it ends exactly when no route is left, and otherwise takes the last hops from one more city out of the database, a new last stop if no city without a name is reached |
| `NodeRemoval.AlwaysARoute` | the_art_of_c++/node_removed.cpp:212-226 | With a city without a name on the way there is a route whatever has been removed |
| `NodeRemoval.RouteViaNewCity` | the_art_of_c++/node_removed.cpp:212-220 | Otherwise each route is a route of the original database through a last stop not reported before |
| `NodeRemoval.FewerLeft` | the_art_of_c++/node_removed.cpp:222-226 | and each turn leaves fewer last hops |
| `NodeRemoval.EveryLastStopGone` | the_art_of_c++/node_removed.cpp:212-215 | When no route is found every last stop has been reported |
| `NodeRemoval.LastStopIsReachable` | the_art_of_c++/node_removed.cpp:212-215 | A last stop not yet removed still makes a route |
| `NodeRemoval.UnnamedCityNeverEnds` | the_art_of_c++/node_removed.cpp:209-227 | A database of two flights for which the loop never ends |
| `NodeRemoval.NamedCitiesEnd` | the_art_of_c++/node_removed.cpp:209-227 | No database whose flights all go to named cities, from a named origin, is like that |
| `LeastCost.Optimal.constructor` | the_art_of_c++/least_cost.cpp:61-63 | The least distance starts at MAXDIST |
| `LeastCost.Optimal.Match` | the_art_of_c++/least_cost.cpp:131-144 | Marks the first unused direct flight, if there is one |
| `LeastCost.Optimal.Find` | the_art_of_c++/least_cost.cpp:150-174 | Marks the first of the nearest unused connections shorter than MAXDIST |
| `LeastCost.Optimal.FindRoute` | the_art_of_c++/least_cost.cpp:177-199 | Terminates; finds a route over unused flights, connections being shorter than MAXDIST, exactly when there is one: by the nearest connection left at each city, up to the first city with a direct flight, and then by the first of those; uses up at least one flight; those off the route lead to exhausted cities and not to the destination |
| `LeastCost.Optimal.FindRouteFrom` | the_art_of_c++/least_cost.cpp:177-199 | The recursion, from any intermediate state of the search |
| `LeastCost.Optimal.Route` | the_art_of_c++/least_cost.cpp:86-105 | Keeps the reversed stack and its distance if it is shorter than the kept one |
| `LeastCost.Optimal.ShowOpt` | the_art_of_c++/least_cost.cpp:108-125 | Reports the kept route in travel order and its distance |
| `LeastCost.FindOptimal` | the_art_of_c++/least_cost.cpp:227-236 | The loop ends; each route is what a search finds, by the nearest connections, in the database the one before left; the routes are real and share no flight, and none can be added: every route there was, connections being shorter than MAXDIST, shares a flight with one of them; the kept route is the first of the shortest |
| `LeastCost.Solve` | the_art_of_c++/least_cost.cpp:227-239 | What is reported in the end: the cities of the first shortest route found, in travel order, and its length, if that is below MAXDIST |
| `LeastCost.SearchIsSettled` | the_art_of_c++/least_cost.cpp:177-199 | The route of each search is settled by the database it starts with |
| `LeastCost.NoneLeft` | the_art_of_c++/least_cost.cpp:228-236 | When a search fails, no route of the original database is free of flights of the routes found |
| `LeastCost.MoreGivenUp` | the_art_of_c++/least_cost.cpp:177-236 | What the searches have given up stays given up after one more |
| `LeastCost.ShortestCanBeMissed` | the_art_of_c++/least_cost.cpp:227-236 | Such routes need not include a shortest one: four flights for which a longer one is a maximal family alone |
| `LeastCost.OneMoreRoute` | the_art_of_c++/least_cost.cpp:228-236 | A further route shares no flight with the earlier ones |
| `LeastCost.ShortestSoFar` | the_art_of_c++/least_cost.cpp:86-105 | Keeping a shorter route keeps the first shortest |
| `GcSequential.Collector.Construct` | the_art_of_c++/gc.h:227-259 | One more exact reference, by a new entry if the block has none |
| `GcSequential.Collector.CopyConstruct` | the_art_of_c++/gc.h:262-279 | One more reference to a listed block |
| `GcSequential.Collector.AssignRaw` | the_art_of_c++/gc.h:429-454 | The reference moves from the old block to the new one |
| `GcSequential.Collector.Assign` | the_art_of_c++/gc.h:457-474 | The same between pointers, self-assignment included |
| `GcSequential.Collector.Destroy` | the_art_of_c++/gc.h:351-370 | Uncounts and collects; after the last pointer the list is empty and every block ever handed in has been freed exactly once |
| `GcSequential.Collector.Collect` | the_art_of_c++/gc.h:374-426 | Terminates; removes exactly the entries without references and frees exactly their non-null blocks |
| `GcSequential.Collector.FindPtrInfo` | the_art_of_c++/gc.h:501-513 | The first entry of the block, or the end |
| `GcSequential.AllFreedAtEnd` | the_art_of_c++/gc.h:351-426 | Without pointers and without garbage the list is empty and every owned block was freed once |
| `GcSequential.DropGarbage` | the_art_of_c++/gc.h:380-424 | Dropping one garbage entry keeps every other entry |
| `GcList.SoundReferenced` | the_art_of_c++/gc.h:227-259 | Counting a reference ahead of its pointer keeps counts, distinctness and ownership |
| `GcList.SoundUncounted` | the_art_of_c++/gc.h:351-370 | Uncounting a live pointer is always possible and keeps them |
| `GcList.SoundMoved` | the_art_of_c++/gc.h:429-474 | Storing the new address makes the counts exact again |
| `GcList.SoundFreed` | the_art_of_c++/gc.h:380-424 | A listed block without references has no pointer, was not freed before, and may be freed |
| `GcLink.GuardedIsMachine` | the_art_of_c++/gcthrd.h:239-591 | Every run that keeps the guard - while the handle is 0, a constructor is entered only with all other threads outside, and a collection only with none in a constructor - is a run under one mutex |
| `GcComplete.MachineIsGuarded` | the_art_of_c++/gcthrd.h:239-591 | Every run of the machine that begins with a construction is one of threads that make the mutex and wait for it, keeping the guard |
| `GcComplete.BareFinishes` | the_art_of_c++/gcthrd.h:423-462 | A thread that collects before there is a mutex can do so to the end and come out |
| `GcLink.LinkKept` | the_art_of_c++/gcthrd.h:239-256 | In such runs one mutex is ever made, every thread waits for it, and it is given back by its owner |
| `GcGuarded.CountsExactWhenUnheld` | the_art_of_c++/gcthrd.h:239-520 | In such runs, whenever nobody holds the mutex, every count is the number of pointers to the block and instCount is the number of pointers |
| `GcGuarded.GuardedFreeingIsSafe` | the_art_of_c++/gcthrd.h:423-462 | In such runs a block is freed only when no pointer points at it, and never twice |
| `GcGuarded.GuardedOneCollector` | the_art_of_c++/gcthrd.h:273-289 | In such runs at most one collector is active, and the handle names it once stored |
| `GcGuarded.GuardedQuietReturn` | the_art_of_c++/gcthrd.h:568-583 | In such runs a collector that returns with no pointer created since it saw instCount at zero leaves an empty list |
| `GcGuarded.GuardedNeverStuck` | the_art_of_c++/gcthrd.h:239-520 | In such runs a thread inside an operation can always go on: the entries it goes to are there |
| `GcGuarded.GuardedNeverBroken` | the_art_of_c++/gcthrd.h:239-520 | In such runs there are never two collectors, nor an assignment to an entry that is gone |
| `GcRaces.BreakingTheGuard` | the_art_of_c++/gcthrd.h:243-250 | Wherever a thread can break the guard by entering, the run can go on to two collectors or to an entry that is gone |
| `GcRaces.TwoConstructors` | the_art_of_c++/gcthrd.h:243-250 | Two constructors that both find the handle at 0 make a mutex each, are inside together, and leave two active collectors |
| `GcRaces.TwoEntries` | the_art_of_c++/gcthrd.h:243-265 | Given the same block, they can list it twice, each entry with one of its two references |
| `GcRaces.FreedUnderPointer` | the_art_of_c++/gcthrd.h:243-449 | Destroying one of the two pointers and collecting then drops both entries and frees the block while the other pointer is live |
| `GcRaces.RaceFromTheStart` | the_art_of_c++/gcthrd.h:243-289 | From the very start, two threads that enter constructors at once can end with two collectors, and with a block freed under a pointer |
| `GcRaces.BareCollection` | the_art_of_c++/gcthrd.h:423-441 | A collection entered before the mutex is made runs without it, and can drop the entry a pointer is being assigned to: its block is freed, unless it is the null pointer, and the pointer is live |
| `GcAtomic.AtomicOperation` | the_art_of_c++/gcthrd.h:239-520 | In every interleaving an operation, from taking the mutex to giving it back, changes the list, the pointers, instCount, and what is owned and freed, exactly as one operation of the sequential collector: it leaves the pointer at its block, and the rest alone |
| `GcAtomic.AtomicCollection` | the_art_of_c++/gcthrd.h:423-462 | A collection by the collector thread drops the entries without references, frees their blocks, and changes nothing else |
| `GcAtomic.OperationRuns` | the_art_of_c++/gcthrd.h:239-520 | From every state with the mutex free, an idle thread can carry out any operation on live pointers, or a new one, and a block not freed, to its end |
| `GcThreaded.StepKeepsInv` | the_art_of_c++/gcthrd.h:239-591 | Under one mutex, every step of every thread keeps the invariant: mutual exclusion, exact counts, the handle, the last collection |
| `GcThreaded.RunKeepsInv` | the_art_of_c++/gcthrd.h:239-591 | So every state of every interleaving under one mutex satisfies it |
| `GcThreaded.CountsExactWhenFree` | the_art_of_c++/gcthrd.h:239-520 | Under one mutex, whenever it is free every count is the number of pointers to the block and instCount is the number of pointers |
| `GcThreaded.FreeingIsSafe` | the_art_of_c++/gcthrd.h:423-462 | Under one mutex, a block is freed only when no pointer points at it, and never twice |
| `GcThreaded.OneCollector` | the_art_of_c++/gcthrd.h:273-289 | Under one mutex, at most one collector is active; the handle names it once stored; before that it has not seen instCount at zero |
| `GcThreaded.QuietReturnLeavesNothing` | the_art_of_c++/gcthrd.h:568-583 | Under one mutex, a collector that returns with no pointer created since it saw instCount at zero leaves an empty list |
| `GcThreaded.LeftAloneExactly` | the_art_of_c++/gcthrd.h:573-583 | With pointers alive and the mutex free, the collectors' own steps lead to no collector at all if and only if the handle is 0 or the collector it names has seen instCount at zero |
| `GcThreaded.UncollectedOnlyAfterLateCreation` | the_art_of_c++/gcthrd.h:573-583 | Pointers are left without a collector only after a creation that a finished collector had not seen |
| `GcThreaded.PointerWithoutCollector` | the_art_of_c++/gcthrd.h:573-583 | A run in which that happens |
| `GcThreaded.NeverStuck` | the_art_of_c++/gcthrd.h:404-520 | A thread inside an operation always has an enabled step: every entry it goes to without looking is there |
| `GcThreaded.CollectorNeverStuck` | the_art_of_c++/gcthrd.h:423-462 | A collector always has one, but for waiting for the mutex |
| `GcThreaded.MutexKept` | the_art_of_c++/gcthrd.h:239-520 | Under one mutex, only its holder is inside an operation |
| `GcThreaded.CountingKept` | the_art_of_c++/gcthrd.h:239-520 | Counts are exact up to the operation under way |
| `GcThreaded.HandleKept` | the_art_of_c++/gcthrd.h:273-289 | The protocol of the thread handle |
| `GcThreaded.FinalKept` | the_art_of_c++/gcthrd.h:568-583 | What the last collection leaves |
| `HashRing.HighBits` | consistent_hash/chash.cpp:20-23 | The mask takes the multiple of 2^18 at or below the hash |
| `HashRing.Hash.Flush` | consistent_hash/chash.cpp:52-78 | Terminates through the uint32 wrap-around; gives every empty place the server of the nearest occupied place before it, or reports ERR_CONF and changes nothing exactly when all are empty |
| `HashRing.Hash.FirstOccupied` | consistent_hash/chash.cpp:54-65 | The first loop finds the first occupied place |
| `HashRing.Hash.Refill` | consistent_hash/chash.cpp:66-77 | The second loop goes once around the ring |
| `HashRing.FillsOnce` | consistent_hash/chash.cpp:52-78 | That filling is unique |
| `HashRing.FillsKeeps` | consistent_hash/chash.cpp:52-78 | It keeps occupied places, fills all others and brings in no new name |
| `HashRing.FillsInOrder` | consistent_hash/chash.cpp:52-78 | Each virtual node takes the server of the last occupied one up to it, and those before the first occupied one that of the last of all |
| `HashRing.Hash.AddServer` | consistent_hash/chash.cpp:79-87 | The whole effect on ring, servers and result |
| `HashRing.Hash.RemoveServer` | consistent_hash/chash.cpp:88-96 | The whole effect on ring, servers and result |
| `HashRing.Hash.AddServerLL` | consistent_hash/chash.cpp:97-112 | The server is live and written at its 64 hash points, with the error cases |
| `HashRing.Hash.RemoveServerLL` | consistent_hash/chash.cpp:113-134 | The server is gone, its hash points and everything it owned are emptied, with the error cases |
| `HashRing.Hash.Load` | consistent_hash/chash.cpp:158-164 | From a ring in order, the configured servers become live, and the ring is filled, with live servers only, or empty; it is full if any server is new |
| `HashRing.ConfiguredRunKeepsRing` | consistent_hash/chash.cpp:79-167 | From the empty ring, configuration and then any run of additions and removals leave the places all filled, with live servers only, or all empty |
| `HashRing.LoadedLast` | consistent_hash/chash.cpp:158-164 | Of the configured servers that share a hash point the last one has it |
| `HashRing.Hash.Lookup` | consistent_hash/chash.cpp:32-35 | The server of a key's virtual node |
| `HashRing.AdditionDisrupts` | consistent_hash/chash.cpp:79-112 | On a full ring a successful addition changes only the new server's hash points, all to it; the result code is determined |
| `HashRing.RemovalDisrupts` | consistent_hash/chash.cpp:88-134 | A successful removal leaves the server nowhere and changes only places it owned or hashed to; ERR_CONF is returned exactly when nothing else is left |
| `HashRing.RunKeepsRing` | consistent_hash/chash.cpp:79-134 | After any run of additions and removals the places are all filled, with live servers only, or all empty |
| `HashRing.CollisionEmptiesRing` | consistent_hash/chash.cpp:118-130 | For every hash and every two servers: adding both and removing the first leaves the second live, and the ring empty if and only if the second has no hash point of its own |
| `HashRing.EqualChecksums` | consistent_hash/chash.cpp:118-130 | So it is left empty for any two names with one checksum, when the checksum of a longer name depends only on that of its beginning and on the rest |
| `HashRing.AtMost64Points` | consistent_hash/chash.cpp:104-110 | A server has at most 64 hash points |
| `HashRing.PointsOfSuffixes` | consistent_hash/chash.cpp:104-110 | A server's hash points are the multiples of 2^18 at or below the checksums of its name followed by a number from 0 to 63, in base ten |
| `HashRing.DecimalReads` | consistent_hash/chash.cpp:106-106 | The suffix is the number in base ten without a zero before it |
| `HashRing.HashedStringsDiffer` | consistent_hash/chash.cpp:104-110 | The 64 strings hashed for a server are different |
| `ListTrie.Trie.Insert` | list_struct_trie.cpp:18-64 | Inserting a word of 7-bit characters keeps the linked shape and makes every node's counts right |
| `ListTrie.Trie.Follow` | list_struct_trie.cpp:25-61 | The loop follows the word to its node, making the missing ones |
| `ListTrie.Trie.Search` | list_struct_trie.cpp:37-43 | The inner loop finds the node for the character, or the last node of the list if there is none |
| `ListTrie.Trie.Child` | list_struct_trie.cpp:28-52 | The node for the next character, made and linked in if missing, every other node keeping its place |
| `ListTrie.Trie.AddFirst` | list_struct_trie.cpp:28-36 | A first child is linked under its parent |
| `ListTrie.Trie.AddLast` | list_struct_trie.cpp:44-52 | A further sibling is linked after the last one |
| `ListTrie.Trie.PassOn` | list_struct_trie.cpp:57-57 | A node that passes the word on counts it |
| `ListTrie.NodeAdded` | list_struct_trie.cpp:28-52 | A new node stands at the end of its list and leads nowhere |
| `ArrayTrie.Trie.Insert` | array_struct_trie.cpp:16-38 | Inserting a word keeps the slots right and makes every node's counts right |
| `ArrayTrie.Trie.Follow` | array_struct_trie.cpp:24-35 | The loop follows the word to its node, making the missing ones |
| `ArrayTrie.Trie.Child` | array_struct_trie.cpp:29-34 | The node in the character's slot, made if missing, every other slot unchanged |
| `TrieAgreement.SameCounts` | list_struct_trie.cpp:18-64 | Two tries that were given the same words agree on every non-empty prefix: count is how often it was inserted, pass how many words go on beyond it |
| `TrieAgreement.InsertAll` | array_struct_trie.cpp:16-38 | After any sequence of insertions into both they agree |
| `TrieAgreement.ArrayCounts` | array_struct_trie.cpp:16-38 | The 256-way trie's counts |
| `TrieAgreement.ListCounts` | list_struct_trie.cpp:18-64 | The sibling-list trie's counts |
| `TrieCounts.NextOfWord` | array_struct_trie.cpp:28-34 | What following one more character changes in the counts |
| `TrieCounts.EndOfWord` | array_struct_trie.cpp:36-36 | What the end of a word changes |
| `TrieCounts.CountsInNumbers` | array_struct_trie.cpp:16-38 | The counts are how many times the word was inserted, and how many insertions were of words that extend it |
| `Tokens.TokensJoin` | the_art_of_c++/trans.cpp:114-218 | The tokens put together are the text again if and only if the number of backslash-quote pairs the text ends in is even; otherwise one character is added |
| `Tokens.TokenKeepsParity` | the_art_of_c++/trans.cpp:114-218 | Taking off a token keeps the parity of those pairs |
| `Tokens.PairsBefore` | the_art_of_c++/trans.cpp:171-180 | How the pairs at the end of a concatenation depend on its parts |
| `Tokens.CharacterClasses` | the_art_of_c++/trans.cpp:121-169 | The characters that make up blank stretches, words and numbers |
| `TranslatorLoop.Translator.GetToken` | the_art_of_c++/trans.cpp:114-218 | The reader with its put-back takes exactly the next token, reports the end exactly at the end, and tracks the indentation |
| `TranslatorLoop.Translator.ReadRun` | the_art_of_c++/trans.cpp:128-169 | Blank stretches, words and numbers are read to their ends |
| `TranslatorLoop.Translator.ReadOther` | the_art_of_c++/trans.cpp:171-217 | Escaped quotes, comment symbols and single characters |
| `TranslatorLoop.IndentIsLineStart` | the_art_of_c++/trans.cpp:130-138 | After a blank stretch with a newline the indentation is what stands after the last newline |
| `TranslatorLoop.IndentGoesOn` | the_art_of_c++/trans.cpp:130-138 | One without a newline is added to the indentation if that is being tracked |
| `TranslatorLoop.Translator.Translate` | the_art_of_c++/trans.cpp:60-104 | The loop stops exactly at the first keyword that is a token of its own outside comments and strings, the header and the text before it having been emitted; without one it ends exactly if the text leaves no comment or string open, read by its characters, and the output is then the header and the text, but for the character above; so it is where the loop never ends |
| `TranslatorLoop.Translator.CopyThrough` | the_art_of_c++/trans.cpp:66-91 | A comment or string is copied to its end, or the source copies nothing for ever after all of the text |
| `TokenStarts.StartOfTokens` | the_art_of_c++/trans.cpp:114-218 | Exactly where the characters before a position let a token start there: no run goes on, nothing is taken along with an escaped quote, and a symbol is its own |
| `TokenStarts.NextStart` | the_art_of_c++/trans.cpp:114-218 | No position inside a token lets one start, and the position after it does |
| `TokenStarts.SymbolTokens` | the_art_of_c++/trans.cpp:171-213 | A double quote, slash or star begins a token exactly when the runs of escaped quotes and of binding symbols before it are even |
| `TokenStarts.WordTokens` | the_art_of_c++/trans.cpp:149-157 | A word is a token of its own exactly where one may start and no letter, digit or underscore follows: also right after a number, never inside a longer word |
| `TokenStarts.TokenStep` | the_art_of_c++/trans.cpp:114-218 | No symbol of its own stands inside a token |
| `TextModes.TokenModes` | the_art_of_c++/trans.cpp:64-104 | Reading a token changes the mode as reading its characters does |
| `TextModes.EndsInTop` | the_art_of_c++/trans.cpp:64-104 | The loop stops at a keyword if and only if it is the first one that is a token of its own outside comments and strings; without one it ends if and only if the mode past the last character is outside them |
| `TextModes.OneWord` | the_art_of_c++/trans.cpp:92-102 | A text that is one word stops the loop exactly if it is foreach, cases, repeat, until or typeof |
| `TextModes.ReachedNext` | the_art_of_c++/trans.cpp:64-104 | One turn of the loop: it stands at the first such keyword, or comes to the next token with none before it and in the mode the characters give |
| `TranslatorLoop.CopiedSoFar` | the_art_of_c++/trans.cpp:64-104 | Wherever the loop has come to, exactly the header and the text before that position have been emitted |
| `TextModes.StaysOpen` | the_art_of_c++/trans.cpp:67-91 | A comment or string goes on exactly as long as nothing closes it |
| `TextModes.UnclosedComment` | the_art_of_c++/trans.cpp:67-91 | A line comment without a newline, a block comment without a star and slash, and a string without another double quote leave the loop without an end, exactly if no keyword stops it before them |
| `TextModes.ClosingQuote` | the_art_of_c++/trans.cpp:85-90 | A double quote closes the string that another opened exactly if the body between them is empty, or does not end in an apostrophe and has an even number of escaped quotes at its end, the closing one counted if a backslash is before it |
| `TextModes.PlainBody` | the_art_of_c++/trans.cpp:171-191 | For a body without double quotes: exactly if it is empty or ends in neither a backslash nor an apostrophe |
| `TextModes.LoneString` | the_art_of_c++/trans.cpp:85-90 | A text that is one string is copied or never ends, by that condition |
| `TextModes.ClosedStringsNotSeen` | the_art_of_c++/trans.cpp:171-191 | Three closed strings that never end |

## Left out

- `exByte` other than 4: narrower exceptions are stored and read as four bytes and do not round-trip.
- A variable-length integer that takes no bytes or ends beyond the buffer counts as undefined, and is reported.
- P4Delta.GetBitSize: differences are not zero, because the bit scan instruction leaves its result undefined then.
- The bodies of the varint pair, `align_int` and crc32, which are not in the repository: an arbitrary inverse pair
  with at most five bytes, rounding up, and an arbitrary function.
- The inline `bsrl` assembly, taken as the index of the highest set bit.
- The improved codec's own unpackers (`p4delta/p4delta.cpp` lines 147-1633) share the statement tables and the
  method of the older codec's; the constants are the same.
- Unaligned word access, undefined in C++ though usual on the target machine, counts as four bytes at once.
- A list compressed in place inside the codec's own result buffer.
- GcSequential.Collector.Collect: the removed entry is taken as saved before its removal; the source reads it
  afterwards.
- The collectors' array sizes, `shutdown`, `showlist`, mutex time-outs, `atexit`, thread handles as system objects,
  iterators, and pointees whose destructors touch counted pointers. In `GcMutex` a wait on handle 0 fails at once and
  the operation goes on, and releasing a mutex one does not hold has no effect, as the system calls do.
- Reuse of freed addresses by the allocator: an address stands for one allocated block.
- Overflow of the `int` counters and of summed distances.
- Console input and output of the drivers: cities are parameters and reports are results.
- HashRing.Hash.Lookup: only the ring lookup of `location`, without the file test and the address parsing.
- Reading and splitting the ring's configuration file; `std::map`'s default entries read as absent.
- Words with characters above 127, which index the 256-way trie out of range; `do_travel` of both tries, the
  sibling-list one of which drops siblings of a counted leaf.
- ArrayTrie: the inline slot array of a node is a sequence field that is reassigned.
- The code emitted for the translator's extended keywords, and its command line and file handling; characters are
  classified as in the "C" locale.
- `breadth_first.cpp`, `hill_climbing.cpp`, `radix_tree.cpp`, `lru_cache.cpp`, `range_array.cpp` and the samples:
  they would add easy members, or do not compile or return on every path.
