# Verified models of the container system

This project models the parts of the container library whose correctness is
hardest to see from the code, and proves what they are for. Code that changes
state is modelled by classes and methods with loops; each method is proved
against a function, and the theorems are about that function or about every
reachable state.

- **Binary codec** (`LittleEndian`, `WireValues`, `Decoder`, `ObjectGraph`,
  `GraphFacts`, `GraphCopies`, `ContainerRuntime`, `RoundTrip`, `Truncation`,
  `ValueStores`, `CodecTheorems`, `WireNumbers`, `WireRuns`). Values lie in
  memory as a graph of shared containers, which may be cyclic; writing one
  gives the bytes of its finite unfolding, in which a reference to a container
  already being written is null. The decoder is specified on every byte string
  and the reading methods are proved to compute it, including the array loop
  that finds out how far to move by writing the element it just read. Type codes, widths and the numbers that
  bits stand for are also stated without the model's own tables, and whole
  encodings are written out byte by byte.
- **Memory pool** (`PoolMemory`, `MemoryPool`, `PoolLayout`,
  `PoolAllocators`). Memory is a map from addresses to bytes and the free list
  is the pointers stored in it.
- **Base64** (`Base64Codec`, `Base64Text`). The accumulator loops with 32-bit
  wrap-around against the grouping of RFC 4648, section 4, with padding as in
  section 3.2, and against the alphabet written out.
- **Text format** (`TextScan`, `TextPatterns`, `TextContainers`, `TextPieces`,
  `TextResults`, `TextTheorems`, `TextViews`, `TextFormat`, `ValueContainers`).
  The regular expressions are explicit scanners, proved on any text to find
  what a backtracking matcher finds; the parser and the lazy index are
  specified on any text. The format escapes nothing, and the theorems say which
  headers and values survive it.
- **Epoch-based reclamation** (`EpochSteps`, `EpochOverlap`, `EpochCounts`,
  `EpochForces`, `EpochManagers`), once with every atomic access a step of its
  own and once with whole calls as steps.
- **Read-copy-update and snapshots** (`RcuSteps`, `RcuPublications`,
  `SnapshotSteps`, `SnapshotRuns`), as step systems with a history of what was
  published, which is also read off the run alone.
- **Schemas** (`ContainerSchemas`, `SchemaTheorems`, `SchemaRuntime`).
- **Lane reductions** (`LaneReductions`).

Several claims made for the code hold only under a condition. These theorems
give it as an if-and-only-if, each within the hypotheses its row names:
`RoundTrip.ElemRoundTrip`, `RoundTrip.ElemsUpTo`,
`PoolMemory.FreeIffLive`, `PoolAllocators.PoolAllocator.Deallocate`,
`Base64Codec.DecodersAgree`, `TextFormat.HeaderRestored`,
`TextFormat.UnitsRestored`, `TextTheorems.SectionKept`,
`TextTheorems.Reprinted`, `TextViews.LazyAgainstEager`,
`TextFormat.PrintedViews`, `ValueContainers.SetPrinted`,
`EpochManagers.DestroyedWhen`, `EpochOverlap.EarlyIff`,
`SnapshotSteps.GoesBackIff`, `SnapshotSteps.PublishesAfterStop`,
`SchemaTheorems.UnsignedRangeAlways`, `SchemaTheorems.InvalidPatternIgnored`,
`LaneReductions.LanesAgainstLoop`.

Where the code and its own comments differ, the model follows the code:

- The comment in `internal/epoch_manager.h:102-103` promises that a deleter
  waits for the readers to leave. The code never looks at readers
  (`internal/epoch_manager.h:158-160`); what protects one is the number of
  `try_gc` calls, and not even that when one of them is in progress.
- `core/container_schema.cpp:100-101` says that an invalid pattern will fail
  validation. It leaves no pattern to match, so validation ignores it.
- `internal/pool_allocator.h:105` says memory goes to the appropriate pool. A
  small or medium request that the heap served is passed to a pool that ignores
  it.
- `core/container.cpp:639-642` puts a value right behind the comma. The pattern
  allows spaces there, so a view of a text after spaces starts too early.

The host is taken to be little-endian with 64-bit `long`, so a long long is
read back into the long slot. `std::format` is taken as the formatter, which
prints `{{` for `{{{{`.

## Model

| member | source | states |
|---|---|---|
| `LittleEndian.LeRoundTrip` | internal/value.cpp:342-347 | An integer below 256^w written in w little-endian bytes is read back. |
| `LittleEndian.LenRoundTrip` | internal/value.cpp:562-565 | A four-byte length field is read back whatever follows, and what follows is left untouched. |
| `ContainerRuntime.Runtime.SerializeValue` | internal/value.cpp:339-357 | Terminates on every finite object graph, cyclic or not, returns the bytes the graph stands for with the containers already in flight cut, and leaves the in-flight set as it was. |
| `ContainerRuntime.Runtime.SerializeData` | internal/value.cpp:259-337 | Same for the data alone: a null pointer or a container already in flight is written as the null container; a null array element as a null value. |
| `ContainerRuntime.Runtime.SerializeContainer` | internal/thread_safe_container.cpp:248-280 | A container's own encoding: entry count and entries, in-flight set unchanged. It does not mark the container itself. |
| `ContainerRuntime.Runtime.SerializeEntries` | internal/thread_safe_container.cpp:253-279 | The count and the entries in enumeration order, each key and value behind its length. |
| `ContainerRuntime.Runtime.DeserializeValue` | internal/value.cpp:555-593 | Succeeds exactly when the decoding function does, on any bytes; the object read unfolds to what that function gives, points only at containers created by this call, and nothing alive before changes. |
| `ContainerRuntime.Runtime.DeserializeData` | internal/value.cpp:359-553 | Same for one datum at an offset; the offset moves exactly as the decoding function says. |
| `ContainerRuntime.Runtime.DeserializeArray` | internal/value.cpp:526-548 | Reads elements advancing by each one's re-serialized size, under any enumeration order the new containers happen to have; agrees with the order-free decoding function. |
| `ContainerRuntime.Runtime.DeserializeContainer` | internal/thread_safe_container.cpp:282-336 | Returns null exactly when the entry list is malformed; otherwise a new container with the decoded map. |
| `ContainerRuntime.Runtime.DeserializeEntries` | internal/thread_safe_container.cpp:298-333 | Reads entries with the four ways to fail; an unreadable value is skipped (container) or ends the call (store). |
| `ContainerRuntime.Runtime.Set` | internal/thread_safe_container.cpp:83-89 | The key maps to the value's data under an empty inner name; every other entry and container is unchanged. |
| `ContainerRuntime.Runtime.SetVariant` | internal/thread_safe_container.cpp:145-150 | Stores a copy under the value's own name, again with an empty inner name; copying an array drops its null elements. |
| `ContainerRuntime.Runtime.SetContainer` | internal/thread_safe_container.cpp:164-170 | The key maps to the pointer, with an empty inner name; this is where cycles arise. |
| `ContainerRuntime.Runtime.CompareExchange` | internal/thread_safe_container.cpp:185-200 | Replaces exactly when the stored value equals the expected one by name and data; hence only an expected value with an empty name can ever match. |
| `ContainerRuntime.Runtime.Remove` | internal/thread_safe_container.cpp:91-102 | Says whether the key was there; the map loses that key and nothing else. |
| `ContainerRuntime.Assign` | internal/value.cpp:118-136 | Assignment through a map keeps the name the entry has and replaces its data, since the name is const; a new entry has an empty name. |
| `WireValues.SumMapAdd` | internal/thread_safe_container.cpp:262-277 | Total size of a map's entries is independent of the order they are taken in. |
| `WireValues.BoxSizeAdd` | internal/thread_safe_container.cpp:253-279 | Encoded size of a container after one more entry. |
| `WireValues.NormExact` | internal/value.cpp:418-463 | What decoding gives back differs from what was encoded exactly when an inner name or a long long kind occurs. |
| `WireValues.NormSize` | internal/value.cpp:539-541 | Decoding never makes what is encoded again longer, and the encoded size stays the same if and only if no inner name occurs at any depth. |
| `WireNumbers.IntegerRead` | internal/value.cpp:368-462 | Every whole number that fits its slot is read back, whatever follows it, as the same number in two's complement, of the same sign and width, never as a long long, and as the kind it was unless it was one; the offset moves past exactly its bytes. |
| `WireNumbers.FloatRead` | internal/value.cpp:464-480 | A float or double comes back bit for bit, and the offset moves past exactly its bytes. |
| `WireNumbers.ValueRead` | internal/value.cpp:555-593 | Every fitting value is read back under its name as what it stands for, at any depth: numbers as above, containers with the same keys and no inner names, arrays element by element, everything else unchanged. |
| `WireNumbers.ReadsOnce` | internal/value.cpp:368-553 | Only one datum with numbers that fit is what a datum has to be read back as, so the relation of `WireNumbers.ValueRead` leaves the decoder no choice. |
| `WireNumbers.NumberWritten` | internal/value.cpp:266-284 | The type code and the little-endian bytes of each of the ten number kinds, digit by digit. |
| `WireNumbers.NumberDecoded` | internal/value.cpp:368-480 | What any bytes behind each of the ten codes are read as, with the long long codes going to the long slots; nothing if they are too few. |
| `WireNumbers.ValueWritten` | internal/value.cpp:339-357 | A value is the length of its name, the name, the type code and the data; the data of null, bool, text, bytes and array, with four-byte lengths written out. |
| `WireNumbers.PointerWritten` | internal/value.cpp:290-312 | A null pointer or one to a container being written is a length of zero; any other container is its count and entries behind their length. |
| `WireNumbers.DatumDecoded` | internal/value.cpp:359-553 | What any bytes behind the codes of null, bool, text, bytes and container are read as: any byte but 0 is true, and a container that cannot be read is null. |
| `WireRuns.SelfRun` | internal/value.cpp:294-301 | The bytes, written out, of a container that holds an array of null, true and itself, and the value they are read back as. |
| `WireRuns.PairRun` | core/value_store.cpp:106-215 | The bytes, written out, of a store of the long long -5 and a text, which are read back as the long -5 and that text; a store of nothing is five bytes. |
| `ObjectGraph.BytesSize` | internal/value.cpp:339-357 | Number of bytes written equals a size that depends on the unfolded value only, not on enumeration order. |
| `ObjectGraph.EntriesBytesSize` | internal/thread_safe_container.cpp:262-277 | Same for a container's entries. |
| `ObjectGraph.UnfoldCount` | internal/thread_safe_container.cpp:253-260 | The count written is the number of entries of the map it stands for. |
| `GraphFacts.CleanUnfold` | internal/value.h:312 | If every entry in memory has an empty inner name, no unfolding shows another one, at any depth. |
| `GraphFacts.CopyExact` | internal/value.cpp:47-54 | A copied value equals the original exactly when no array in it, at any depth, has a null element. |
| `GraphCopies.CopyInOrder` | internal/value.cpp:47-54 | A copied array is the original without its null elements, in order, each element copied under its name. |
| `GraphFacts.UnfoldLocal` | internal/value.cpp:295-303 | The finite value an object stands for depends only on the containers reachable from it and on which of them are in flight. |
| `RoundTrip.ValueRoundTrip` | internal/value.cpp:339-357 | For every graph, in-flight set and trailing bytes: decoding the encoding gives the unfolding with long long kinds moved to the long slots. |
| `RoundTrip.DataRoundTrip` | internal/value.cpp:359-553 | Same for data alone, and the bytes used are exactly the bytes written. |
| `RoundTrip.ContainerRoundTrip` | internal/value.cpp:508-524 | A container not in flight comes back as its map and never as the null container. |
| `RoundTrip.BoxRoundTrip` | internal/thread_safe_container.cpp:282-336 | A container's own encoding, of any total length, followed by anything decodes to its map. |
| `RoundTrip.ElemsRoundTrip` | internal/value.cpp:526-548 | An encoded array followed by anything decodes to its elements, with the offset right behind the last one. |
| `RoundTrip.ElemRoundTrip` | internal/value.cpp:535-544 | Every fitting array element is read back, and its re-serialized size equals the bytes it occupies in the input if and only if no inner name occurs in it. |
| `RoundTrip.ElemsUpTo` | internal/value.cpp:535-544 | An array is read back up to and including its first element with an inner name; the offset behind that element is right if and only if there is no inner name, and too small otherwise. |
| `RoundTrip.EntriesRoundTrip` | internal/thread_safe_container.cpp:298-333 | Entries written one after the other are read back into the map, container or store. |
| `Truncation.ValueTruncated` | internal/value.cpp:555-593 | No strict prefix of a value's encoding decodes. |
| `Truncation.DataTruncated` | internal/value.cpp:359-553 | No strict prefix of a datum's encoding decodes, at any depth. |
| `Truncation.ElemsTruncated` | internal/value.cpp:535-544 | No strict prefix of an array's elements decodes. |
| `Truncation.EntriesTruncated` | internal/thread_safe_container.cpp:298-322 | Entries cut anywhere are reported, even where unreadable values are skipped. |
| `Truncation.BoxTruncated` | internal/thread_safe_container.cpp:282-322 | No strict prefix of a container's own encoding decodes. |
| `CodecTheorems.GraphRoundTrip` | internal/value.cpp:339-357 | On heaps reachable through the named-entry-free operations the round trip holds for every object, and is exact if and only if no long long kind occurs in the unfolding. |
| `CodecTheorems.SelfCycle` | internal/value.cpp:294-301 | A container holding itself is written with the inner pointer null, and the bytes decode so, whatever follows; its own encoding holds it once more. |
| `CodecTheorems.OrderIrrelevant` | internal/thread_safe_container.cpp:262-277 | Two graphs with the same unfolding, in whatever enumeration orders, have encodings of the same length that decode alike. |
| `CodecTheorems.InnerNameShiftsArray` | internal/thread_safe_container.cpp:338-350 | With an inner name, as operator[] leaves one, the array decoder reads the next element one byte too early: a concrete input for the condition of ElemRoundTrip. |
| `ValueStores.StoreRoundTrip` | core/value_store.cpp:106-140 | A store of any total length written and read back is the same map, whatever follows the bytes. |
| `ValueStores.StoreTruncated` | core/value_store.cpp:149-198 | No strict prefix of a store's encoding is accepted. |
| `WireRuns.OneBadEntry` | internal/thread_safe_container.cpp:324-331 | Of any entries of which one has a value that cannot be read, a container keeps all the others and a store is refused with the key of that one. |
| `WireRuns.CutEntries` | core/value_store.cpp:168-193 | Of any entries followed by bytes that are no whole entry, a container reads nothing, and a store is refused with what was cut: an entry with its number, a key or a value. |
| `WireRuns.VersionByte` | core/value_store.cpp:152-162 | A store is too small exactly below five bytes, and otherwise refused for its version exactly if the first byte is not 1. |
| `ValueStores.ValueStore.Add` | core/value_store.cpp:11-16 | The key maps to the value's data with an empty inner name; nothing else changes. |
| `ValueStores.ValueStore.Get` | core/value_store.cpp:18-27 | Returns the stored value, or nothing exactly when the key is absent. |
| `ValueStores.ValueStore.Remove` | core/value_store.cpp:35-44 | Says whether the key was there and removes only it. |
| `ValueStores.ValueStore.SerializeBinary` | core/value_store.cpp:106-140 | Version byte, then the container encoding of the entries. |
| `ValueStores.ValueStore.DeserializeBinary` | core/value_store.cpp:149-215 | A new store with the decoded map, or the error the decoding function gives. |
| `PoolMemory.LoadStored` | internal/memory_pool.h:71 | A pointer stored in a block's first eight bytes is read back. |
| `PoolLayout.LinkBytes` | internal/memory_pool.h:71 | A link is the next address in eight bytes, low byte first, and no other byte of memory changes. |
| `PoolLayout.NewChainAt` | internal/memory_pool.h:127-136 | The blocks of a new chunk are handed out from its last to its first. |
| `PoolMemory.PopKeeps` | internal/memory_pool.h:44-47 | Taking the head off the list in memory keeps the list and makes the block live. |
| `PoolMemory.PushKeeps` | internal/memory_pool.h:71-73 | Putting a live or a new block in front keeps the list in memory and every byte of the other live blocks. |
| `PoolMemory.LinksKept` | internal/memory_pool.h:108-114 | Any change of memory that spares the free blocks' link words keeps the list. |
| `PoolMemory.ChainUnique` | internal/memory_pool.h:110-114 | Memory holds one chain only from a given head, so the ghost chain is the real one. |
| `PoolMemory.FreeIffLive` | internal/memory_pool.h:57-73 | Pushing an address onto the list leaves some well-formed list over the same blocks if and only if the address is a live block: the range check in the code lets double and interior frees through, and both break the list. |
| `MemoryPool.FixedBlockPool.AllocateChunk` | internal/memory_pool.h:127-137 | The new chunk's blocks, last first, are in front of the old chain; live blocks keep their bytes. |
| `MemoryPool.FixedBlockPool.LinkChunk` | internal/memory_pool.h:131-136 | The loop that threads the list through the new chunk. |
| `MemoryPool.FixedBlockPool.Allocate` | internal/memory_pool.h:30-48 | Hands out the head of the chain, or a block of a new chunk when the chain is empty, never a live one; both error cases leave the live blocks as they were. |
| `MemoryPool.FixedBlockPool.Deallocate` | internal/memory_pool.h:50-74 | A live block goes to the front of the chain; null and addresses outside the chunks change nothing; any other address is linked in, and then no well-formed list is left in memory. |
| `MemoryPool.FixedBlockPool.ClientWrite` | internal/memory_pool.h:44-48 | A write inside a live block keeps the pool's invariant. |
| `MemoryPool.FixedBlockPool.GetStatistics` | internal/memory_pool.h:105-124 | The walk over the links in memory terminates, and free plus allocated blocks are chunks times blocks per chunk. |
| `MemoryPool.NewBlock` | internal/memory_pool.h:127-136 | A block of the newest chunk overlaps no earlier block. |
| `PoolAllocators.PoolAllocator.Allocate` | internal/pool_allocator.h:77-102 | A small or medium request is served by its pool whenever that has a free block or can grow, any other by the heap, which may have nothing; the new statistics are given exactly for each case, blocks other clients hold keep their bytes, and nothing is lost. |
| `PoolAllocators.PoolAllocator.ServePool` | internal/pool_allocator.h:83-97 | The part inside the try block: served exactly if the pool has a block or the system a chunk; otherwise nothing changes. |
| `PoolAllocators.PoolAllocator.ServeHeap` | internal/pool_allocator.h:100-101 | One miss, and what `operator new` returns becomes a region of the heap and is held. |
| `PoolAllocators.PoolAllocator.Deallocate` | internal/pool_allocator.h:109-127 | A region from a pool goes back to the front of that pool's chain; for a heap region both pools' memory and chains stay as they are, and `operator delete` frees it exactly if its size is large. Of the heap's regions that nobody holds, exactly the small and medium ones are added. |
| `PoolAllocators.FallbackIsLost` | internal/pool_allocator.h:109-127 | A run of two calls that loses a region: a small request the heap served, given back as it should be. |
| `PoolAllocators.PoolAllocator.ResetStats` | internal/pool_allocator.h:156-158 | Counters restart; what is held and what is lost are unaffected. |
| `PoolAllocators.PoolAllocator.HeldDisjoint` | internal/pool_allocator.h:77-102 | Any two held regions, from whatever source, are disjoint, and each is at least as long as asked for. |
| `Base64Codec.ToBase64` | utilities/core/convert_string.h:48-76 | The accumulator loop, with the wrap-around of a 32-bit int, computes the grouping of section 4 of RFC 4648 with its padding, for every input; Base64Text.CharacterAt says which character stands where. |
| `Base64Text.CharacterAt` | utilities/core/convert_string.h:48-76 | Each character of an encoding: the one the alphabet of RFC 4648, Table 1, has for the i-th six bits of the input, filled up with zero bits, and `=` where no bit of the input is left. |
| `Base64Text.Vectors` | utilities/core/convert_string.h:48-76 | The seven encodings listed in section 10 of RFC 4648. |
| `Base64Text.FoobRun` | utilities/core/convert_string.h:48-105 | A run of the three loops: "foob" is encoded as "Zm9vYg==", and both decoders give it back. |
| `Base64Codec.EncodedLength` | utilities/core/convert_string.h:68-70 | The output has 4 * ceil(n / 3) characters. |
| `Base64Codec.FromBase64` | utilities/core/convert_string.h:81-105 | The accumulator loop computes the bytes of the alphabet characters before the first '=', and nothing else in the text matters. |
| `Base64Codec.BuildTable` | utilities/convert_string_stub.cpp:52-55 | The table holds each alphabet character's position, which Base64Text.Positions gives by the written-out alphabet, and -1 elsewhere. |
| `Base64Codec.StubFromBase64` | utilities/convert_string_stub.cpp:48-70 | The stub decodes the characters before the first one outside the alphabet. |
| `Base64Text.Positions` | utilities/core/convert_string.h:50-83 | A character is read as its position in the written-out alphabet, and as nothing exactly if it is not in it. |
| `Base64Text.ReadInTurn` | utilities/core/convert_string.h:86-92 | The header's decoder takes each character for its position in the alphabet, those outside it for nothing, and stops at an `=`. |
| `Base64Text.StubReadInTurn` | utilities/convert_string_stub.cpp:57-61 | The stub's takes each character for its position and stops at the first one outside the alphabet. |
| `Base64Text.ByteRead` | utilities/core/convert_string.h:93-100 | Byte j of what is decoded is the eight bits from bit 8j of the six-bit numbers read; bits short of a byte are dropped. |
| `Base64Codec.RoundTrip` | utilities/core/convert_string.h:48-105 | Decoding an encoding gives back the bytes, and both decoders read the same sextets from it. |
| `Base64Codec.DecodersAgree` | utilities/convert_string_stub.cpp:59-61 | The two decoders return the same bytes if and only if no alphabet character comes behind a foreign one and before the first '=', or just one does and a multiple of four alphabet characters comes first; they read the same sextets if and only if there is none. |
| `Base64Text.WrapsAround` | utilities/core/convert_string.h:55 | An int that overflows wraps around at 2^32, into the range of a 32-bit int. |
| `Base64Codec.ShiftIn` | utilities/core/convert_string.h:55-60 | Wrap-around never disturbs the bits the loop still needs. |
| `TextScan.LazyBracket` | core/container.cpp:2087 | A lazy group before `];` takes all of a text of one line that has none. |
| `TextScan.BlockFound` | core/container.cpp:2069 | The section pattern finds a section printed with two braces where it starts, with its body, if the body is one line of items without `};`. |
| `TextScan.SkipBlock` | core/container.cpp:2069-2071 | Text in which the tag does not start is passed over. |
| `TextPatterns.ItemIsWay` | core/container.cpp:2087 | The item found is a match of `\[(\w+),\s*(\w+),\s*(.*?)\];`, by the codes of the characters, on any text. |
| `TextPatterns.ItemIsFirst` | core/container.cpp:2087 | If a text has any match of that pattern at its front, an item is found, with that name and type; of all matches it is the one a backtracking matcher takes, whose text begins last and ends first. |
| `TextPatterns.PairIsWay` | core/container.cpp:700 | The pair found is a match of `\[(\w+),(.*?)\];` on any text. |
| `TextPatterns.PairIsFirst` | core/container.cpp:700 | If there is any match, a pair is found, with that key and the shortest text. |
| `TextPatterns.BlockIsWay` | core/container.cpp:2069 | The section found is a match of the tag and `\s*\{\{?\s*(.*?)\s*\}\}?;` on any text. |
| `TextPatterns.BlockIsFirst` | core/container.cpp:2069 | If there is any match, a section is found, and of all matches it is the one whose text begins last and ends first. |
| `TextPatterns.FirstBlock` | core/container.cpp:2069-2071 | The search finds the leftmost place where the pattern matches, and nothing exactly if it matches nowhere. |
| `TextPieces.HeaderFound` | core/container.cpp:686-697 | The header section of printed text with plain printed fields (one line, no `];`, no `};`) is found at the front with all its fields, whatever data follows. |
| `TextPieces.DataFound` | core/container.cpp:2069-2077 | The data section found in printed text is the one found in the data alone, if no printed field holds the data tag once newlines are gone. |
| `TextPieces.KeptSection` | core/container.cpp:2069-2077 | The data section of values whose parts hold no newline and no `};` is all of the data. |
| `TextPieces.UnitsOfData` | core/container.cpp:2086-2177 | Scanning a printed data section of values with words for names and types and plain texts gives them in order, less the spaces in front of their text. |
| `TextPieces.SetFieldsOf` | core/container.cpp:699-712 | Scanning a printed header of plain fields sets exactly the printed fields, each trimmed. |
| `TextResults.HeadersPlain` | core/container.cpp:686-713 | Whatever the text, every header field that is parsed is one line without `];` and `};`. |
| `TextResults.ValuesFound` | core/container.cpp:2086-2096 | Whatever the text, every value that is parsed has words for its name and type and a plain text that does not start with a space. |
| `TextResults.SectionAgain` | core/container.cpp:500-502 | A data section found in a text is found again, whole, when it is all the text. |
| `TextTheorems.ParsedHeader` | core/container.cpp:670-715 | A printed header with plain printed fields is parsed trimmed, and without the ids of a plain data container, whatever data follows. |
| `TextFormat.ParsedValues` | core/container.cpp:2059-2178 | Printed values whose names and types are words (by character codes) and whose texts hold no newline, no `];` and no `};`, behind a header that holds no data tag, are parsed in order, less the spaces in front of their texts. |
| `TextFormat.HeaderRestored` | core/serializers/binary_serializer.cpp:114-128 | For every header and any data behind it: the header is parsed back unchanged if and only if none of its six fields holds a newline, `];` or `};` or has a blank at an end, and a plain data container has no ids. |
| `TextFormat.UnitsRestored` | core/container.cpp:2087-2096 | For all values behind a header that holds no data tag: they are parsed back unchanged if and only if their names and types are words, by character codes, and their texts hold no newline, `];` or `};` and do not start with one of the six space characters. |
| `TextFormat.MissingSections` | core/container.cpp:654-715 | What an empty text and texts in which a section pattern matches nowhere are parsed as, written out; parsing succeeds exactly if the text is not empty and the data pattern matches somewhere. |
| `TextFormat.ParsedFlags` | core/container.cpp:2076-2084 | The values are parsed at once unless only the header was asked for and a data section was found; parsing is no change. |
| `TextFormat.PrintedHeader` | core/serializers/binary_serializer.cpp:114-128 | The printed header, field by field with its number, with ids and for a plain data container without them. |
| `TextFormat.PrintedValues` | core/container.cpp:1757-1775 | The printed values, each part in its place, one behind the other. |
| `TextFormat.TrimIs` | core/container.cpp:2190-2208 | A trimmed field is the part of the text between its blanks. |
| `TextFormat.CleanInTurn` | core/container.cpp:680-684 | Newlines are taken out and every other character stays, in order. |
| `TextFormat.BobRun` | core/container.cpp:2087-2096 | A value with a name of letters of both cases, an underscore and a digit: the text it is printed as, what is parsed from it, and its view. |
| `TextTheorems.SectionKept` | core/container.cpp:2069-2077 | For all values behind a header that holds no data tag: the section kept is the one printed if and only if no part of a value holds a newline or `};`. |
| `TextTheorems.Reprinted` | core/container.cpp:1757-1762 | A header-only parse of printed text with plain printed fields that hold no data tag, and any values: the kept section is the one printed if and only if no part of a value holds a newline or `};`, and printing gives the same text if and only if besides no printed field has a blank at an end. |
| `TextViews.LazyAgainstEager` | core/container.cpp:267-296 | Of every text of one line: a view is absent exactly when the eager lookup is; the view shows as many characters as the parser stores, from as far in front of them as spaces were skipped behind the two commas; with none skipped before the type, the two are equal if and only if none were skipped before the text or the text is empty. |
| `TextViews.NewlineHidesViews` | core/container.cpp:604-612 | A newline in the values, with no second data tag and no `};` among them, leaves the index empty: the index reads the text with its newlines. |
| `TextViews.NewlineRun` | core/container.cpp:604-612 | A value whose text is one newline is found by the parser, as empty, and by no view. |
| `TextContainers.RawIndexInside` | core/container.cpp:634-645 | Every index entry lies inside the text, whatever the text is. |
| `TextFormat.ViewIsFirst` | core/container.cpp:597-650 | Of such printed values behind a one-line header without a data tag, the lazy view of a key shows the text of the first value of that name, less as many characters at its end as spaces stand in front of it; nothing if there is no such value. |
| `TextFormat.PrintedViews` | core/container.cpp:267-296 | Of such printed text the eager lookup gives what stands behind the spaces, and view and lookup show the same if and only if there are no leading spaces or nothing else. |
| `ValueContainers.TrimField` | core/container.cpp:2190-2208 | The two scans for a non-blank compute the trimmed field. |
| `ValueContainers.ValueContainer.constructor` | core/container.cpp:54-66 | Parses the text; in header-only mode the text is kept for views. |
| `ValueContainers.ValueContainer.Initialize` | core/container.cpp:654-664 | Header blank, no values, index and kept text untouched. |
| `ValueContainers.ValueContainer.Deserialize` | core/container.cpp:670-715 | Result and new state are those of the parsing function, on any text. |
| `ValueContainers.ValueContainer.ParseFields` | core/container.cpp:700-712 | The loop over the pairs of the header sets what the specification sets. |
| `ValueContainers.ValueContainer.ParseField` | core/container.cpp:2180-2210 | One pair sets one field, trimmed; unknown numbers set nothing. |
| `ValueContainers.ValueContainer.DeserializeValues` | core/container.cpp:2059-2178 | Old values go; the section is kept as text and parsed unless only the header is wanted; without a section the call fails and leaves an empty container. |
| `ValueContainers.ValueContainer.ParseItems` | core/container.cpp:2086-2175 | The loop over the matches pushes the values in order. |
| `ValueContainers.ValueContainer.Datas` | core/container.cpp:1757-1775 | The kept section if the values were not parsed, otherwise the section printed from them. |
| `ValueContainers.ValueContainer.Serialize` | core/serializers/binary_serializer.cpp:97-134 | The printed text of the present state. |
| `ValueContainers.ValueContainer.Get` | core/container.cpp:246-265 | The first value of that name. |
| `TextFormat.LookupIsFirst` | core/container.cpp:246-265 | Looking a name up gives the text of the first value of that name, and nothing if there is none. |
| `ValueContainers.ValueContainer.BuildIndex` | core/container.cpp:597-650 | Fills the index once, from the kept text; an index already built is left alone. |
| `ValueContainers.ValueContainer.IndexItems` | core/container.cpp:623-648 | The loop over the matches records names and offsets. |
| `ValueContainers.ValueContainer.GetView` | core/container.cpp:267-296 | The view the index over the kept text gives, in bounds; nothing if no text was kept. |
| `ValueContainers.ValueContainer.Set` | core/container.cpp:349-380 | The first value of that name is replaced, or one is added at the end. |
| `ValueContainers.ValueContainer.RemoveBatch` | core/container.cpp:492-522 | Parses the kept section first if need be; exactly the values with those names go, the others keep their order, and the number removed is returned. |
| `ValueContainers.LookupSet` | core/container.cpp:362-373 | After setting, the name finds the new text and every other name what it found before. |
| `ValueContainers.LookupWithout` | core/container.cpp:509-514 | After removing, the names find nothing and every other name what it found before. |
| `ValueContainers.SetOnHeaderOnly` | core/container.cpp:500-502 | On a container parsed by its header alone, a value that is set is found but not printed, and the next removal drops it. |
| `ValueContainers.SetPrinted` | core/container.cpp:1757-1762 | After setting, the values as they now are get printed if and only if they were parsed or the kept section already says the same. |
| `ValueContainers.RemoveAfterHeaderOnly` | core/container.cpp:492-522 | Whatever the text, removing after a header-only parse gives the state that removing after an eager parse gives. |
| `EpochSteps.StepInv` | internal/epoch_manager.h:110-210 | Every single step of defer_delete, try_gc and force_gc keeps: each deferred object in exactly one place, and the counts adding up. |
| `EpochSteps.EveryRun` | internal/epoch_manager.h:110-210 | After any interleaving of any number of threads: each object is in exactly one place, is destroyed at most once, and reclaimed_count plus everything not yet counted is the number deferred. |
| `EpochSteps.Quiescent` | internal/epoch_manager.h:232-247 | With no call in flight, reclaimed_count is the number destroyed and with pending_count the number deferred. |
| `EpochSteps.DestroyedGrows` | internal/epoch_manager.h:169-172 | What was destroyed stays destroyed, in order. |
| `EpochOverlap.CollectorOf` | internal/epoch_manager.h:145-178 | Over every interleaving: the try_gc that deletes an object either had read the epoch before the object was deferred, or reads e+2 or later; fewer than three advances after the deferral only in the first case. |
| `EpochOverlap.SafeWindow` | internal/epoch_manager.h:76-89 | In every reachable state: an object deferred while no thread is about to take its bucket survives all steps that advance the epoch at most twice and start no force_gc, even past the largest epoch. |
| `EpochOverlap.EarlyIff` | internal/epoch_manager.h:145-167 | In every reachable state: an object deferred now can be destroyed before three more advances and before another force_gc starts if and only if some thread is already about to take its bucket. |
| `EpochOverlap.OverlapDestroys` | internal/epoch_manager.h:147-172 | A run of two threads in which a try_gc in progress destroys an object although no call advanced the epoch since its deferral. |
| `EpochOverlap.SlowCollector` | internal/epoch_manager.h:147-172 | A run in which such a collector takes the object only after three more advances, so overlapping does not imply early. |
| `EpochManagers.EpochEach` | internal/epoch_manager.h:115-119 | At epoch g every bucket holds objects of one epoch, one of g-2, g-1 and g, whichever atomic call is made. |
| `EpochManagers.CollectsOneEpoch` | internal/epoch_manager.h:145-178 | try_gc that reads epoch g destroys exactly what was deferred in epoch g-2. |
| `EpochManagers.RunKeeps` | internal/epoch_manager.h:110-210 | Over every run of whole calls, force_gc included, the buckets hold one epoch each and every deferred object is retired or destroyed. |
| `EpochManagers.DestroyedWhen` | internal/epoch_manager.h:145-178 | Of whole calls, whatever came before: an object is destroyed if and only if three try_gc calls, or a force_gc, have run since it was deferred; so by the try_gc that reads e+2 unless force_gc ran first. |
| `EpochManagers.ReaderSafety` | internal/epoch_manager.h:76-89 | If no calls overlap, an object deferred after a reader entered is destroyed before the reader leaves if and only if three try_gc calls or a force_gc run after the deferral; with overlapping calls two are not safe, see EpochOverlap.EarlyIff. |
| `EpochManagers.Counters` | internal/epoch_manager.h:174-175 | After any run of whole calls from a new manager reclaimed_count is the number of objects destroyed, and gc_count the number of try_gc calls that read an epoch of at least two and of force_gc calls that destroyed something. |
| `EpochManagers.CollectionsOf` | internal/epoch_manager.h:145-160 | While the 64-bit epoch lasts, all try_gc calls but the first two count as collections. |
| `EpochManagers.CounterRun` | internal/epoch_manager.h:145-178 | Two objects and three try_gc calls: two reclaimed in one collection. |
| `EpochCounts.GcCount` | internal/epoch_manager.h:145-210 | After any interleaving gc_count and the collections in flight are the try_gc calls that read an epoch of at least two and the force_gc calls that ended and found something; the epoch is the number of try_gc calls modulo 2^64. |
| `EpochCounts.GcCountQuiescent` | internal/epoch_manager.h:145-210 | With no call in flight gc_count is the number of those calls. |
| `EpochForces.ForceTakesAll` | internal/epoch_manager.h:188-210 | In every reachable state a force_gc, whatever other threads do during it, ends with none of the objects in a bucket that were in one when it was called. |
| `EpochManagers.EpochManager.DeferDelete` | internal/epoch_manager.h:110-120 | A null pointer is ignored; another goes to the end of the bucket of the present epoch; nothing else changes. |
| `EpochManagers.EpochManager.TryGc` | internal/epoch_manager.h:145-178 | At an epoch of two or more exactly the bucket of epoch g-2 is emptied, its deleters are run in order, gc_count grows by one and reclaimed_count by the number returned; below, only the epoch moves. |
| `EpochManagers.EpochManager.ForceGc` | internal/epoch_manager.h:188-210 | All buckets are emptied and destroyed in order; reclaimed_count grows by the number returned and gc_count by one if there was any; the epoch stays. |
| `EpochManagers.EpochManager.RunDeleters` | internal/epoch_manager.h:169-172 | Each pointer of the list is deleted once, in order. |
| `EpochManagers.EpochManager.PendingCount` | internal/epoch_manager.h:240-247 | The number of objects in all buckets. |
| `RcuSteps.StepInv` | internal/rcu_value.h:115-162 | Every step keeps: a caller's kept address is current exactly when its version is the latest, although freed addresses are reused. |
| `RcuPublications.PublishesGiven` | internal/rcu_value.h:129-160 | After any run what was published is the initial value followed by the values given to the updates that stored and the swaps that succeeded, in the order of those steps, all read off the run; the current value is the last of them. |
| `RcuPublications.ReadsUpdate` | internal/rcu_value.h:115-133 | A read after an update that stored, with nothing stored or swapped since, gets the value given to that update. |
| `RcuSteps.SwapIffUnchanged` | internal/rcu_value.h:148-162 | In every reachable state a swap succeeds if and only if nothing was published since its expected version was read. |
| `RcuSteps.CountsPublications` | internal/rcu_value.h:168-170 | update_count is the number of publications whenever no call is between publishing and counting. |
| `RcuSteps.NoLostIncrement` | internal/rcu_value.h:148-162 | In any interleaving of read-and-swap increment loops the value is the initial one plus the number of publications. |
| `SnapshotSteps.StepInv` | internal/thread_safe_container.h:560-569 | Every step keeps: snapshots, published or about to be, are the source map at one past instant. |
| `SnapshotSteps.ReadsOneInstant` | internal/thread_safe_container.h:458-469 | Every read answers from the source map as it was at one instant. |
| `SnapshotRuns.AnswersWritten` | internal/thread_safe_container.h:458-469 | After any run a reader answers from the initial map or one of the maps written, and the refresh count is one plus the refreshes finished. |
| `SnapshotRuns.FreshRefresh` | internal/thread_safe_container.h:560-569 | Right after a refresh that copied and published, readers see the map written last before. |
| `SnapshotSteps.SingleRefresher` | internal/thread_safe_container.h:560-569 | With one refresher, snapshot instants never go back and a finished refresh is no staler than its call. |
| `SnapshotRuns.NoStalerThanCall` | internal/thread_safe_container.h:560-569 | With one refresher, once a refresh has published, readers see no map older than the last one written before that refresh was called, read off the run. |
| `SnapshotSteps.TwoRefreshersGoBack` | internal/thread_safe_container.h:560-569 | For any two different refreshers, the background thread among them or not, a run in which the slower one turns the published snapshot back. |
| `SnapshotSteps.GoesBackIff` | internal/thread_safe_container.h:560-569 | Restricted to a given set of refreshers, some run turns the snapshot back if and only if the set has two different members. |
| `SnapshotSteps.OnlyManualAfterStop` | internal/thread_safe_container.h:652-664 | After the first stop has returned, every later step of a refresh is a manual caller's. |
| `SnapshotSteps.SecondStopReturnsEarly` | internal/thread_safe_container.h:655-657 | A run in which a second stop returns while the background refresh still publishes afterwards. |
| `SnapshotSteps.PublishesAfterStop` | internal/thread_safe_container.h:652-664 | In every reachable state after any stop has returned: the background thread can still publish if and only if it has begun a refresh that has not published. |
| `SchemaTheorems.NoErrors` | core/container_schema.cpp:139-164 | validate_all finds no error if and only if the container satisfies the declarative predicate of the schema, nested schemas included. |
| `SchemaTheorems.Reported` | core/container_schema.cpp:139-164 | An error is in the list if and only if the field at its path, at any depth, is violated for the cause it gives. |
| `SchemaTheorems.RulesReported` | core/container_schema.cpp:214-263 | A field's own errors are exactly the rules its value breaks. |
| `SchemaTheorems.FindIsFirst` | core/container_schema.cpp:144-161 | The value a field is checked against is the first one of that name. |
| `SchemaTheorems.NestedBlock` | core/container_schema.cpp:537-572 | A failing nested container stands as one block: a summary with the number of nested errors, then those errors in order, each path prefixed. |
| `SchemaTheorems.ErrorsConcat` | core/container_schema.cpp:144-161 | Errors come in the order of the fields. |
| `SchemaTheorems.UnsignedRange` | core/container_schema.cpp:325-345 | For 64-bit unsigned values the check is the range of the number itself if and only if the number is below 2^63 or its signed reading is outside the range. |
| `SchemaTheorems.UnsignedRangeAlways` | core/container_schema.cpp:325-345 | The check is the range of the number itself for all 64-bit unsigned values if and only if the range does not start below zero or is empty. |
| `SchemaTheorems.LargestUnsignedPasses` | core/container_schema.cpp:339-345 | The range -10..10 accepts 2^64 - 1. |
| `SchemaTheorems.CustomAdds` | core/container_schema.cpp:115-122 | One validator more is exactly one condition more. |
| `SchemaTheorems.InvalidPatternIgnored` | core/container_schema.cpp:88-104 | Text that is not a regular expression asks for nothing of any value, and takes the place of the pattern there was. |
| `SchemaTheorems.RangeAdds` | core/container_schema.cpp:58-66 | A range on a field without one is exactly one condition more, on the numbers it looks at. |
| `SchemaTheorems.Replaced` | core/container_schema.cpp:58-122 | Changing one field changes the meaning of the schema in that field only. |
| `SchemaRuntime.ContainerSchema.Define` | core/container_schema.cpp:22-52 | Appends a field; an earlier one of the same name stays. |
| `SchemaRuntime.ContainerSchema.FindField` | core/container_schema.cpp:200-212 | The first field of that name. |
| `SchemaRuntime.ContainerSchema.RangeInt64` | core/container_schema.cpp:58-66 | Sets both bounds of the first field of that name; without one nothing changes. |
| `SchemaRuntime.ContainerSchema.RangeDouble` | core/container_schema.cpp:68-76 | Same for the real bounds. |
| `SchemaRuntime.ContainerSchema.Length` | core/container_schema.cpp:78-86 | Same for the length bounds. |
| `SchemaRuntime.ContainerSchema.Pattern` | core/container_schema.cpp:88-104 | Same for the pattern; of text that is not a regular expression only the text is kept. |
| `SchemaRuntime.ContainerSchema.OneOf` | core/container_schema.cpp:106-113 | Same for the allowed texts. |
| `SchemaRuntime.ContainerSchema.Custom` | core/container_schema.cpp:115-122 | Adds a validator behind the earlier ones. |
| `SchemaRuntime.ContainerSchema.ValidateAll` | core/container_schema.cpp:139-164 | The error list of the specification; empty if and only if the schema is satisfied. |
| `SchemaRuntime.ContainerSchema.Validate` | core/container_schema.cpp:128-137 | The first error, or none if and only if the schema is satisfied. |
| `SchemaRuntime.ValidateFields` | core/container_schema.cpp:144-161 | The loop over the fields, with the first value of each name. |
| `SchemaRuntime.ValidateField` | core/container_schema.cpp:214-263 | The seven validators, none of which stops the others. |
| `SchemaRuntime.ValidateType` | core/container_schema.cpp:265-276 | A mismatch is one error. |
| `SchemaRuntime.ValidateRange` | core/container_schema.cpp:278-396 | At most one error: the real range is not looked at after an integer one. |
| `SchemaRuntime.ValidateLength` | core/container_schema.cpp:398-438 | Texts and byte strings only. |
| `SchemaRuntime.ValidatePattern` | core/container_schema.cpp:440-478 | A mismatch or a matcher that throws is one error. |
| `SchemaRuntime.ValidateAllowed` | core/container_schema.cpp:480-509 | Texts only. |
| `SchemaRuntime.ValidateCustom` | core/container_schema.cpp:511-535 | The first validator that rejects or throws gives the one error. |
| `SchemaRuntime.ValidateNested` | core/container_schema.cpp:537-572 | A missing container is one summary with no nested errors; a failing one is the block above. |
| `LaneReductions.HorizontalTotal` | internal/simd_policies.h:177-181 | The lanes add up to their total in the order of each policy: pairwise, halves and pairs, or halving. |
| `LaneReductions.LaneSum` | internal/simd_policies.h:168-189 | The vector loop, the horizontal sum and the tail loop give the sum of all elements, for every width and length. |
| `LaneReductions.ScalarSum` | internal/simd_policies.h:113-119 | The plain loop from a start. |
| `LaneReductions.SumFloats` | internal/simd_policies.h:113-119 | Every policy computes the same sum. |
| `LaneReductions.SumDoubles` | internal/simd_policies.h:464-483 | Same for doubles, eight to a vector under AVX-512. |
| `LaneReductions.LaneBest` | internal/simd_policies.h:195-220 | The lanes, started at the sentinel, give the best of the sentinel and all elements. |
| `LaneReductions.BestLane` | internal/simd_policies.h:206-212 | The lane loop or the halving gives the best lane. |
| `LaneReductions.HalvingBest` | internal/simd_policies.h:427 | Reducing by halves finds what the plain loop finds. |
| `LaneReductions.FoldVecPick` | internal/simd_policies.h:201-204 | Comparing lane by lane loses no candidate. |
| `LaneReductions.FoldIsBest` | internal/simd_policies.h:121-130 | The plain loop finds an element that none beats. |
| `LaneReductions.LanesAgainstLoop` | internal/simd_policies.h:195-220 | Lanes and plain loop agree if and only if some element is within the sentinel bound; otherwise the lanes give the sentinel. |
| `LaneReductions.SentinelIs` | internal/simd_policies.h:195-199 | The sentinels are 2^128 - 2^104 and its negative. |
| `LaneReductions.ProcessorSum` | internal/simd_processor.cpp:411-436 | The sum of the floats among the values, 0 without one. |
| `LaneReductions.FloatsInTurn` | internal/simd_processor.cpp:411-425 | The floats among the values, in their order; values of other kinds give nothing. |
| `LaneReductions.ProcessorBest` | internal/simd_processor.cpp:450-500 | Nothing if and only if there is no float; otherwise the best float, or the sentinel if all floats are beyond it. |

## Left out

- Locks, memory orders and thread creation: a locked region, an atomic access or a deleter call is one step, and the methods of the classes are atomic.
- Read and write counters of values, containers and stores, metrics, and memory footprints.
- The meaning of floats on the wire: they are their bits, so their comparison by value (NaN, signed zero) is not modelled; `WireNumbers` says what number the bits of the other kinds stand for. `CompareExchange` compares bits and the pointer of a nested container.
- Failure to reserve memory and exceptions from the standard library; `value_store::deserialize_binary_result`, the non-throwing twin of the decoder that is modelled.
- Containers built by the initializer list, by references from `operator[]` or by `bulk_update`: they can hold inner names, which `CodecTheorems.InnerNameShiftsArray` shows to break array decoding. The round trips hold for them too wherever no array element holds one.
- RoundTrip.ValueRoundTrip: asks for written lengths below 2^32, which the encoder would cut, and for array elements without inner names below them; so do the other round trips and the truncation theorems.
- Moved-from values and the legacy constructors of a value from raw bytes.
- The bytes of heap regions, alignment, and destruction of pools; of the heap only the regions this allocator got are modelled; the allocator is modelled with `CONTAINER_USE_MEMORY_POOL` on.
- PoolAllocators.PoolAllocator.Deallocate: asks that the region be held and the size be the one requested; the classification by size makes anything else the caller's error, and `PoolMemory.FreeIffLive` shows what a wrong address does.
- Base64Codec.StubFromBase64: characters below 128 only; others index the stub's table with a negative number.
- `convert_string::replace`, the other string helpers and hexadecimal printing: no property beyond their bodies.
- Text format: values are texts and types are words; converting a word to a type and a text to a number, nested containers inside a text, duplicates of `deserialize` for bytes and results, `copy`, and the MessagePack, JSON and XML forms.
- TextFormat.UnitsRestored: asks that no printed header field hold the data tag. A field that does can be taken for the data section, whose items may then be anything.
- TextFormat.ParsedValues: asks the same, and for values the format carries; for others TextFormat.UnitsRestored says that they do not come back.
- TextTheorems.SectionKept: asks that no printed header field hold the data tag.
- TextTheorems.Reprinted: asks the same, and for plain printed fields. With others the text can be that of another header and other values, which a header-only parse then reprints.
- TextViews.LazyAgainstEager: texts of one line. The index does not remove newlines, TextViews.NewlineHidesViews says what that does; with spaces between the first comma and the type, the shifted characters may by chance be the same, so the last clause leaves that case to a comparison of the two.
- TextFormat.ViewIsFirst: asks for a one-line header without the data tag and for values the format carries; for other texts of one line TextViews.LazyAgainstEager holds.
- TextFormat.PrintedViews: asks the same; for others TextViews.LazyAgainstEager holds.
- `value_view` accessors: reads of the text a view shows.
- The fallback formatter for platforms without `std::format`, which would print four braces.
- EpochManagers.ReaderSafety: calls do not overlap here, and the 64-bit epoch does not wrap around (2^64 is no multiple of the three buckets). Overlapping calls and the wrap-around are covered by EpochOverlap.EarlyIff, whose condition is about a state and not about a run of calls.
- EpochManagers.DestroyedWhen: the same.
- EpochManagers.EpochEach: the 64-bit epoch does not wrap around.
- EpochManagers.RunKeeps: the same.
- EpochOverlap.CollectorOf: the 64-bit epoch does not wrap around.
- Deleters that throw or call the manager again.
- A thread that keeps several snapshots of an RCU value is several callers; `store` through other members than `update` and `compare_and_update` is not modelled. Values are integers.
- Snapshots: a key maps to an integer; the waiting time of the background thread is any.
- Schemas: messages as text and numeric codes (an error keeps its rule and what its message quotes), regular expressions and custom validators (parameters), NaN in real ranges, and `validate_result`.
- Lane reductions: exact arithmetic, no NaN; the feature probes; copies of the same loops in `internal/simd_processor.cpp:21-408`.
- `find_equal_floats`, `fast_copy` and `fast_compare`: plain loops.
- gRPC adapters, coroutines, file I/O, executors and messaging: no logic of their own. Binary decoding of `message_container` is unfinished in the source.
