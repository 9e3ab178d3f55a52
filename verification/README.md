# What the memory, the wire and the codecs keep

Proofs about five cores of the repository: the heap (a slab allocator over a buddy tree), XTP tree packets, the
protocol between a guest and its host (a ring, a door, a record stream, generational handles, the GPU encoder), the
text codecs (JSON, UTF-8, base64url), and two loops over collections (a heap with its sort, the tick scheduler). Where
the C++ and the Rust hold one algorithm it is modelled once.

`dafny verify dfyconfig.toml` checks all of it.

## How it is laid out

Code that works in place is a class over the memory it works in, each method proved to take the step of a value that
the lemmas are about. Code that only computes is functions.

- Heap. `BuddyTree` is the geometry, `BuddySpec` the states and steps, `BuddyProperties` what every state keeps,
  `BuddyRefusals` what a refusal means, `BuddyMemory` and `BuddySteps` the links and bits in memory, `BuddyMallocs` the
  class. `SlabSpec`, `SlabMemory`, `SlabSteps`, `SlabBlocks`, `SlabTurns` and `SlabMallocs` are the size classes over it.
- XTP. `XtpTree` says a tree's bytes, `XtpReader` reads any bytes, `XtpWire` says on the bytes which it takes,
  `XtpRoundTrip` joins tree and reader, `XtpPlacing` and `XtpWriter` are the writer, `XtpEncode` the retry loop and grafts,
  `XtpGoldens` whole packets in hexadecimal.
- Protocol. `RingSteps` is the ring as a step relation, one word or byte at a time, `Rings` as either side runs it,
  `Doors` the door. `Streams`, `Handles`, `GpuRecords`, `GpuHost`, `Gpus` and `GpuPipelines` are the encoder and its host,
  `GpuDrifts` how far the two may come apart, `GpuRuns` two runs in which they do, `GpuGoldens` a pipeline's record word for
  word.
- Codecs. `JsonText` is the grammar and the check, `JsonGrammar`, `JsonAccepts` and `JsonCovers` that they are one,
  `JsonReads`, `JsonWalks` and `JsonMeanings` the reading, `JsonSteps` and `JsonStrings` the strings; `JsonShapes` and
  `JsonSpellings` are the grammar and the escapes as the standard prints them. `Utf8`, `Base64Url`.
- Loops. `Heaps`, `Ticks`.

Memory is an array of words, each at the byte address it starts at, with the widths of wasm32: a pointer is 4 bytes, a
list entry 8, a run's header 16. Counters that wrap are written with their modulus. Floats are their bits.

## Model

| member | source | states |
|---|---|---|
| BuddyProperties.Tiling | cpp/xpute/kit/alloc/buddy_tree.hpp:91-185 | In every state, each address of the root's span lies in exactly one live or free block, aligned to its own size and inside the span, and a block is free exactly where its bucket lists it |
| BuddyProperties.LeavesDisjoint | cpp/xpute/kit/alloc/buddy_tree.hpp:145-152 | No two live or free blocks overlap |
| BuddyProperties.LiveBounded | cpp/xpute/kit/alloc/buddy_tree.hpp:72-74 | What is live is at most what is used, which is at most the range |
| BuddyProperties.RefusedIffNoRoom | cpp/xpute/kit/alloc/buddy_tree.hpp:104-137 | On a range that holds the largest block, a request is refused exactly where no aligned stretch of its size is free of live blocks |
| BuddyProperties.RefusalStands | cpp/xpute/kit/alloc/buddy_tree.hpp:75-76 | On such a range a refused request stays refused through any requests with nothing let go |
| BuddyRefusals.UndoneIff | cpp/xpute/kit/alloc/buddy_tree.hpp:75-76 | On any range, from any state: requests alone can undo a refusal exactly where the search stopped at the back of the request's own list, on the block that crosses the end, whose first half may still be handed out, and another block is listed for that size or a larger |
| BuddyRefusals.OthersInside | cpp/xpute/kit/alloc/buddy_tree.hpp:130-137 | At most one free block crosses the end of the range |
| BuddyCounterexample.RefusedThenServed | cpp/xpute/kit/alloc/buddy_tree.hpp:75-76 | From the first call on, a request refused and then served with nothing let go in between |
| BuddyProperties.NothingLive | cpp/xpute/kit/alloc/buddy_tree.hpp:161-185 | With nothing live the tree is one free root and no node is in use |
| BuddyProperties.SameAddress | cpp/xpute/kit/alloc/buddy_tree.hpp:181-184 | A block let go and asked for again comes back at the same address exactly where what it merged into starts there and no smaller free block would do |
| BuddyCounterexample.AnotherAddress | cpp/xpute/kit/alloc/buddy_tree.hpp:181-184 | From the first call on: 16 bytes at 0 and 16 at 16, let go in that order; the next 16 are at 0, not where the last were let go |
| BuddyProperties.ReleaseThenFind | cpp/xpute/kit/alloc/buddy_tree.hpp:161-185 | Letting go of a block whose buddy is not free and asking for its size undo each other |
| BuddySteps.StoredSplitDown | cpp/xpute/kit/alloc/buddy_tree.hpp:147-152 | A level of splitting flips the one bit and links the one block that make memory hold the split state, and touches no live block |
| BuddyMallocs.BuddyMalloc.Malloc | cpp/xpute/kit/alloc/buddy_tree.hpp:91-158 | In memory, `malloc` answers what the search over states finds, keeps links, split bits, mark and live count right, and changes no byte of a live block |
| BuddyMallocs.BuddyMalloc.Free | cpp/xpute/kit/alloc/buddy_tree.hpp:161-185 | `free` takes the step that merges and lists the block, and counts a release |
| BuddyMallocs.BuddyMalloc.LargestFree | cpp/xpute/kit/alloc/buddy_tree.hpp:82-88 | The size of the largest free block, 0 for none |
| BuddyMallocs.BuddyMalloc.KeptByUsers | cpp/xpute/kit/alloc/buddy_tree.hpp:232-251 | Whatever users write in live blocks, the allocator stays as it was |
| SlabSpec.ClassTight | cpp/xpute/kit/alloc/slab.hpp:131-137 | A request's class is the least whose slot holds it, aligned as asked |
| SlabSpec.CountedIff | cpp/xpute/kit/alloc/slab.hpp:25-25 | The C++ table of heads has a request's class exactly where it needs at most half a smallest block or at least a whole one; else the class is the first past the table |
| SlabSpec.PastTheTable | cpp/xpute/kit/alloc/slab.hpp:177-177 | With smallest blocks of 64 KiB, a request of 40000 bytes is of class 12 and the C++ heads are 12 |
| SlabSpec.AlwaysClassed | rust/kit/src/alloc/slab.rs:23-24 | The Rust table has every request's class |
| SlabSpec.RunIsLeast | cpp/xpute/kit/alloc/slab.hpp:23-24 | A class's run is the least power of two that a smallest block fits in and sixteen of the class's slots do; half of it would not do |
| SlabMallocs.SlabMalloc.Alloc | cpp/xpute/kit/alloc/slab.hpp:71-96 | With as many heads as either allocator has, for every request whose class the table has: refused exactly where there is no free slot and no room for the least run of such slots, or no block; else one live block more, of the class or size asked, a slot the first free one of a run there was or the lowest of one more block of the buddy's; all other blocks live and untouched, every head access in range |
| SlabMallocs.SlabMalloc.Dealloc | cpp/xpute/kit/alloc/slab.hpp:98-122 | That block and no other stops being live; a run goes back to the buddy exactly where its last slot came back |
| SlabMallocs.SlabMalloc.GivenAligned | cpp/xpute/kit/alloc/slab.hpp:127-130 | What a request is answered with holds its bytes and is aligned as asked |
| SlabMallocs.MaskedRun | cpp/xpute/kit/alloc/slab.hpp:104-106 | The mask of a slot's offset gives its run |
| SlabMallocs.SlabMalloc.KeptByUsers | cpp/xpute/kit/alloc/slab.hpp:139-140 | Whatever users write in their blocks, headers, lists and free slots stay |
| SlabBlocks.BlocksDisjoint | cpp/xpute/kit/alloc/slab.hpp:142-159 | Live blocks, slots and pages alike, are disjoint |
| XtpRoundTrip.RoundTrip | cpp/amalgamation/xpute.hpp:2721-2785 | Any tree's packet, whatever follows it, reads whole as the tree: nodes, types, nulls with theirs, and values in order |
| XtpRoundTrip.BitsRead | cpp/amalgamation/xpute.cpp:574-584 | Bit `i` of a bit set read is bit `i` written |
| XtpRoundTrip.StringsRead | cpp/amalgamation/xpute.cpp:603-624 | String `i` of a string sequence read is string `i` written |
| XtpReader.DeepTidy | cpp/amalgamation/xpute.cpp:705-725 | Where any bytes read whole, every child's extent is strictly inside its branch's and past the table, and no two siblings' meet |
| XtpReader.SiblingsApart | cpp/amalgamation/xpute.cpp:718-725 | Two children's extents lie in the children's order |
| XtpReader.PacketNodes | cpp/amalgamation/xpute.hpp:2249-2266 | A packet that reads whole has at most a node for each eight bytes, and one more |
| XtpWire.PacketIff | cpp/amalgamation/xpute.cpp:605-745 | Any bytes are read whole exactly where they are a packet: the magic, a size within them, a known type, and a payload whose nodes hold what their types say, strings in UTF-8 with a zero byte after, children in order past their branch's entries |
| XtpWire.RootIff | cpp/amalgamation/xpute.cpp:734-747 | The root is refused, with EBADMSG, exactly where the header is none or a branch's entries do not fit |
| XtpWire.LeafGives | cpp/amalgamation/xpute.cpp:574-630 | What a leaf's bytes are read as, by its type |
| XtpWire.TypesAre | cpp/xpute/kit/wire/xtp/spec.hpp:25-90 | The types on the wire, their widths and alignments, by their bytes |
| XtpWire.GraftIff | cpp/amalgamation/xpute.cpp:888-910 | What is placed as a graft is a packet of whole units of its root's type, told on its bytes |
| XtpGoldens.Branches | spec/golden/wire/xtp/encode.tsv:26 | A branch of three nulls and a number, byte for byte |
| XtpGoldens.Strings | spec/golden/wire/xtp/encode.tsv:34 | A string sequence, byte for byte |
| XtpGoldens.Bits | spec/golden/wire/xtp/encode.tsv:22 | A bit set, byte for byte |
| XtpGoldens.Text | spec/golden/wire/xtp/encode.tsv:12 | A string, byte for byte |
| XtpGoldens.Shorts | spec/golden/wire/xtp/encode.tsv:18 | An array of 16-bit numbers, byte for byte |
| XtpGoldens.Number | spec/golden/wire/xtp/encode.tsv:4 | A 32-bit number, byte for byte |
| XtpWriter.PacketWriter.Walk | cpp/amalgamation/xpute.hpp:2721-2765 | The writer in its buffer leaves the bytes of the tree placed after what was there, its entry filled in, or the first refusal |
| XtpWriter.PacketWriter.Graft | cpp/amalgamation/xpute.cpp:888-910 | A graft in the buffer is the packet's payload placed as its root's type places it; refused as no packet exactly where its bytes are none |
| XtpEncode.Encode | cpp/amalgamation/xpute.hpp:2770-2791 | The doubling loop gives what one pass into the largest buffer gives, and EINVAL for a cap no packet has |
| XtpEncode.OverflowIffLarger | cpp/amalgamation/xpute.hpp:2770-2791 | One pass is refused for want of room exactly where the packet is larger than the cap |
| XtpEncode.GraftIsInline | cpp/amalgamation/xpute.cpp:871-910 | Grafting a tree's finished packet writes, after anything, what writing the tree there would, and is refused where that would be |
| XtpEncode.InlinedSame | cpp/amalgamation/xpute.cpp:871-910 | Any of a tree's grafts may be written in line: the bytes are the same |
| XtpEncode.GraftedRoundTrip | cpp/amalgamation/xpute.cpp:888-910 | A tree with packets grafted in it reads as the tree with them in line |
| RingSteps.RunIsFifo | cpp/xpute/guest/ipc/ring.cpp:36-97 | In every interleaving of the two sides' word and byte accesses: never more frames than places, and what is taken is what was pushed, whole, once and in order, across the wrap of the positions |
| RingSteps.RefusedIffFull | cpp/xpute/guest/ipc/ring.cpp:55-57 | The length the words tell is the frames that wait: full exactly at capacity, empty exactly at none |
| Rings.Ring.Push | cpp/xpute/guest/ipc/ring.cpp:55-67 | One frame more, refused exactly where the ring is full or the packet larger than a slot |
| Rings.Ring.PushInPlace | cpp/xpute/guest/ipc/ring.hpp:50-58 | The same with the packet written in the slot itself |
| Rings.Ring.Pkt | cpp/xpute/guest/ipc/ring.cpp:82-92 | The finished packet of the frame at the head, exactly; any other offset is inside the slots or refused |
| Rings.Ring.Shared | cpp/xpute/guest/ipc/ring.cpp:36-64 | What the two sides share, word for word: the counts in words 1 and 2, each waiting frame's four words at its place, its packet in that place's slot |
| Doors.CreditRule | cpp/xpute/guest/ipc/door.hpp:77-99 | Every turn fits the completion ring exactly where what a command and the turn itself may raise are together within the bound |
| Doors.BothMayNotReachTheBound | cpp/xpute/guest/ipc/door.hpp:77-99 | A ring of eight made for two events, with both raising two: the drain ends with it full |
| Doors.Door.Turn | cpp/xpute/guest/ipc/door.hpp:77-95 | Within the rule no post overruns; submissions are applied in order, each once, one at least where any waits, while there is room for what one more may leave and no longer; each adds its events and then one frame of its tag and command exactly where it failed or bit 1 of its flags is set, which gives its error or else its value |
| Doors.OneAtLeast | cpp/xpute/guest/ipc/door.hpp:98-99 | A drain that finds the completion ring empty applies one submission at least |
| Handles.LiveAgain | cpp/xpute/guest/abi/handle.hpp:34-57 | A handle kept past its release is live exactly where its slot has been taken a multiple of 65535 times more and is taken |
| Handles.OneHandle | cpp/xpute/guest/abi/handle.hpp:54-57 | A slot has one live handle at most |
| Handles.Table.Insert | cpp/xpute/guest/abi/handle.hpp:34-51 | A new handle of the slot given back last, or of one never taken; none exactly where every slot is live |
| Handles.Table.Remove | cpp/xpute/guest/abi/handle.hpp:62-71 | A live handle let go and what it held; nothing for any other |
| Handles.Table.Rollback | cpp/xpute/guest/abi/handle.hpp:79-85 | Exactly the live handles taken since `begin` let go, each given out once with its value |
| Streams.Stream.Emit | cpp/xpute/gpu/encode.hpp:315-324 | A record of exactly the words put, or none where an open transaction no longer fits it |
| Streams.Count | cpp/xpute/gpu/encode.hpp:270-276 | The counting pass finds the number of words the filling pass writes |
| Streams.Stream.Commit | cpp/xpute/guest/ipc/stream.hpp:67-77 | A transaction that spilled leaves the stream as at `begin` |
| Streams.Stream.Past | cpp/xpute/guest/ipc/stream.cpp:46-56 | A record laid past the end is none the host will find |
| GpuHost.Host.Run | rust/gpu/src/host/run.rs:25-51 | The host runs the turn's records, those and no others, in order |
| GpuHost.Ops | cpp/xpute/gpu/api.spec.hpp:39-177 | Which ops make and which let go, by number |
| GpuRecords.SeenIffPlain | rust/gpu/src/host/run.rs:741-816 | The host sees the pipeline described exactly where no optional value is the one that stands for none and its names are UTF-8 |
| GpuRecords.LayoutLost | cpp/xpute/gpu/encode.hpp:430-479 | A pipeline whose layout is the value that stands for none has the record of the pipeline without one, and is seen as that |
| GpuRecords.ReadPipeline | rust/gpu/src/host/run.rs:741-816 | Reading a pipeline's record word by word gives what was described, as the host sees it |
| GpuGoldens.RecordParts | spec/gpu/api.json:101 | A pipeline's record is its fields in the order the protocol gives them |
| GpuGoldens.DepthFlat | spec/gpu/api.json:101 | Depth and stencil, word for word |
| GpuGoldens.TargetFlat | spec/gpu/api.json:101 | A target, word for word, blending or not |
| GpuGoldens.TriangleRecord | spec/golden/gpu/programs.tsv:11 | The triangle's pipeline, word for word |
| GpuPipelines.RenderPipeline | cpp/xpute/gpu/encode.hpp:430-479 | A pipeline made is one handle and one record, its handle first |
| GpuPipelines.RunPipeline | rust/gpu/src/host/run.rs:741-816 | That record run occupies the handle's slot and reads as what was described, exactly where it is plain |
| Gpus.Gpu.Make | cpp/xpute/gpu/encode.hpp:574-587 | A handle of a free slot and its record, or neither; none exactly where every slot is live or an open transaction has no room. It holds its op, and that op's count is one more, where that is below DESTROY; no other count changes |
| Gpus.Gpu.End | cpp/xpute/gpu/encode.hpp:546-550 | Whatever handle it is given: that one is let go on the guest, its record written or dropped with its transaction, and the drift is what `FreedDrift` says |
| Gpus.Gpu.Submit | cpp/xpute/gpu/encode.hpp:553-560 | The same for a list of handles, in one record |
| Gpus.Gpu.Destroy | cpp/xpute/gpu/encode.hpp:562-564 | A live handle, made in the open transaction or before it, let go whether or not its record fits; a dead one changes nothing |
| Gpus.Gpu.Commit | cpp/xpute/gpu/encode.hpp:538-542 | A transaction that spilled leaves the stream as at `begin`, and live what it began with but for what was let go in it; where it began without drift, it ends without exactly where none of what it began with was let go |
| Gpus.Gpu.Turn | cpp/xpute/gpu/encode.hpp:531-598 | After any calls and turns: an object at a live handle's slot is its own; the host's occupied slots are exactly the live handles' where and only where there is no drift; `objects()` counts, for each op, the live handles whose last making record, of all there were, is of that op |
| GpuDrifts.MadeBetween | cpp/xpute/gpu/encode.hpp:574-587 | Run by the host, a record that makes an object ends one slot's being left over and loses nothing |
| GpuDrifts.FreedBetween | rust/gpu/src/host/run.rs:388-395 | Run by the host, a record that lets handles go takes whatever is at their slots: the live handles there are lost, but those it names |
| GpuDrifts.FreedMatch | cpp/xpute/gpu/encode.hpp:546-564 | Letting handles go keeps two sides that agree agreed exactly where no live handle shares a slot with a stale one let go |
| GpuDrifts.SpilledBetween | cpp/xpute/gpu/encode.hpp:538-564 | A transaction dropped whole leaves over, on the host, each slot whose handle was let go in it |
| GpuDrifts.SpilledIff | cpp/xpute/gpu/encode.hpp:538-564 | It ends without drift exactly where what was let go, of what it began with, is what the host had lost, and no slot was left over |
| GpuDrifts.StaleEnd | cpp/xpute/gpu/encode.hpp:546-550 | A handle ended after its slot was taken again, in words: two sides that agree no longer do |
| GpuRuns.SubmittedTwice | cpp/xpute/gpu/encode.hpp:553-560 | Call by call: an encoder submitted, its slot taken by another, the first submitted again; the other is live and the host holds nothing |
| GpuRuns.DestroyedThenSpilled | cpp/xpute/gpu/encode.hpp:562-564 | Call by call: a buffer made, then destroyed in a transaction whose write does not fit; nothing is live and the host holds its object |
| JsonReads.ReadJson | cpp/xpute/kit/codec/json.cpp:156-161 | Accepts exactly one value of the grammar nested at most 128 deep with whitespace around it, and gives that value |
| JsonReads.SkipVal | cpp/xpute/kit/codec/json.cpp:110-154 | The check as it recurses and loops is the grammar's |
| JsonAccepts.ValueStands | cpp/xpute/kit/codec/json.cpp:110-154 | What is accepted is the text of some tree of the grammar |
| JsonCovers.ValueFound | cpp/xpute/kit/codec/json.cpp:110-154 | Every tree's text, to the depth, is accepted and gives that tree |
| JsonShapes.NumberIff | cpp/xpute/kit/codec/json.cpp:83-108 | The trees' numbers are those of section 6 of RFC 8259, character by character |
| JsonShapes.Bracketed | cpp/xpute/kit/codec/json.cpp:110-154 | The trees' arrays and objects have the brackets, commas, colons and quotation marks of sections 4 and 5 |
| JsonWalks.JsonItems.Next | cpp/xpute/kit/codec/json.cpp:244-254 | The items in order, each whole; skipping again what was checked never fails |
| JsonWalks.JsonFields.Next | cpp/xpute/kit/codec/json.cpp:256-267 | The fields in order, key and value, the same way |
| JsonWalks.Get | cpp/xpute/kit/codec/json.cpp:227-234 | The last field whose key says the name; none exactly where no field's does |
| JsonWalks.KeysSay | cpp/xpute/kit/codec/json.cpp:227-234 | Over UTF-8 a key says the name exactly where it is decoded to the name |
| JsonWalks.TextStrings | cpp/xpute/kit/codec/json.cpp:78-79 | A text in UTF-8 has all its strings in UTF-8 |
| JsonMeanings.Walk | cpp/xpute/kit/codec/json.hpp:60-104 | Items, fields and decoded strings walked give the whole of what the text says, of any bytes whose decoding stays inside |
| JsonMeanings.ParsePrinted | cpp/xpute/kit/codec/json.hpp:103-136 | Any value printed with any whitespace and `quoted` strings, to the depth, is read back as itself |
| JsonStrings.EscapedSays | cpp/xpute/kit/codec/json.hpp:108-136 | A string quoted says what it was quoted from |
| JsonStrings.EqStr | cpp/xpute/kit/codec/json.cpp:320-329 | Whether a string says a text, of any bytes: byte for byte without escapes, character by character with them |
| JsonStrings.SaysIffSaid | cpp/xpute/kit/codec/json.cpp:320-329 | Over UTF-8 that is whether the string is decoded to the text |
| JsonSteps.JsonChars.Next | cpp/xpute/kit/codec/json.cpp:283-318 | The character a step takes off any bytes, wherever the step stays inside |
| JsonSpellings.SpellingRead | cpp/xpute/kit/codec/json.cpp:283-318 | Every spelling of a character that section 7 of RFC 8259 has, whatever follows, is read as that character and takes its own bytes |
| JsonSpellings.LoneRead | cpp/xpute/kit/codec/json.cpp:310 | A surrogate's escape that no other completes is read as U+FFFD |
| JsonSpellings.SpelledIff | cpp/xpute/kit/codec/json.cpp:283-318 | A string of the grammar spells the characters it is read as, and no others |
| JsonSpellings.EscapeSpells | cpp/xpute/kit/codec/json.hpp:108-136 | What `quoted` writes for a byte spells it, in the fewest bytes where it has a letter |
| JsonSteps.PastIff | cpp/xpute/kit/codec/json.cpp:274-318 | A step goes past the end exactly where a first byte says its character has more bytes than are left |
| JsonSteps.InsideIff | cpp/xpute/kit/codec/json.cpp:274-318 | No step of a whole string does exactly where every first byte the decoder meets has as many bytes from it on as it says |
| JsonSteps.AcceptedAndPast | cpp/xpute/kit/codec/json.cpp:59-81 | A string of the byte F0 alone is accepted, and its first step goes past its end |
| JsonStrings.TextInside | cpp/xpute/kit/codec/json.cpp:283-318 | Over UTF-8 no step goes past the end, and what is decoded is what the string says |
| Utf8.IsUtf8 | cpp/xpute/kit/codec/encoding.hpp:63-70 | Accepts exactly the grammar of section 4 of RFC 3629 |
| Utf8.Lossy | cpp/xpute/kit/codec/encoding.hpp:73-88 | Characters kept, each maximal ill-formed part one U+FFFD, as section 3.9 of the Unicode Standard recommends |
| Utf8.ReadingKeepsText | cpp/xpute/kit/codec/encoding.hpp:73-88 | That reading is the identity exactly on valid UTF-8 |
| Utf8.ReadingIsText | cpp/xpute/kit/codec/encoding.hpp:73-88 | That reading is always valid UTF-8 |
| Utf8.CharsAreScalars | cpp/xpute/kit/codec/encoding.hpp:42-61 | The grammar's characters are the scalar values, each in one way |
| Utf8.InOrder | cpp/xpute/kit/codec/encoding.hpp:42-61 | Characters' bytes are in the order of their scalar values |
| Utf8.Replacement | cpp/xpute/kit/codec/encoding.hpp:73-88 | What stands for an ill-formed part is the character U+FFFD |
| Base64Url.DecodeEncoded | cpp/xpute/kit/codec/encoding.cpp:54-97 | What is encoded is decoded |
| Base64Url.EncodeDecoded | cpp/xpute/kit/codec/encoding.cpp:75-97 | What is decoded encodes to the same text |
| Base64Url.Decode | cpp/xpute/kit/codec/encoding.cpp:75-97 | The loop over groups decodes, and refuses, as the text's own definition does |
| Base64Url.Alphabet | cpp/xpute/kit/codec/encoding.cpp:54-97 | The symbols are the alphabet of section 5 of RFC 4648 |
| Base64Url.Vectors | cpp/xpute/kit/codec/encoding.cpp:54-73 | The encodings of "f", "fo", "foo" and "foobar" that section 10 of RFC 4648 gives |
| Heaps.Heapify | cpp/xpute/kit/collection/heap.hpp:31-44 | Restores the heap from a root both of whose subtrees hold it, the elements the same |
| Heaps.Heap.Push | cpp/xpute/kit/collection/heap.hpp:54-64 | One element more, and a heap |
| Heaps.Heap.Build | cpp/xpute/kit/collection/heap.hpp:46-50 | Any elements made a heap, the same ones |
| Heaps.Heap.Pop | cpp/xpute/kit/collection/heap.hpp:66-73 | One element less, a heap, and none came before the one taken; none taken exactly where it is empty |
| Heaps.HeapSort | cpp/xpute/kit/collection/heap.hpp:94-103 | Sorted, and the same elements |
| Ticks.Tick.RunPhase | cpp/xpute/guest/sched/tick.hpp:156-177 | The walk over the shrinking registry runs what `Runs` says and leaves the rest in order |
| Ticks.RunsAll | cpp/xpute/guest/sched/tick.hpp:156-177 | What runs, runs in the order of the registry; each step of the phase runs exactly where no step that ran at an earlier place asked it off |
| Ticks.RunsOnce | cpp/xpute/guest/sched/tick.hpp:156-177 | None twice, and none that one run before it asked off |

## Findings

Where the code does not do what it or its comments say, with the input and the exact condition.

- Buddy, cpp/xpute/kit/alloc/buddy_tree.hpp:75. "A refused request can only be served once this has moved" fails on a
  range that ends inside the largest block. `BuddyCounterexample.RefusedThenServed` is a run from the first call on 120
  bytes; `BuddyRefusals.UndoneIff` is the condition, over every state and range. On a range that holds the largest block
  it never fails (`BuddyProperties.RefusalStands`).
- Buddy, lines 181-183. "A free followed by a malloc of the same size hands back the same address" fails where the freed
  block merged into one that starts before it, or a smaller free block would do: `BuddyProperties.SameAddress`.
  `BuddyCounterexample.AnotherAddress` is a run from the first call on.
- Slab, cpp/xpute/kit/alloc/slab.hpp:25 and 177. The table has `MIN_LOG2 - 4` heads, and `class_for` gives that number
  as a class for a need strictly between half a smallest block and a whole one: the access is past the table.
  `SlabSpec.PastTheTable` is the input, `SlabSpec.CountedIff` the condition. `Alloc` and `Dealloc` are proved for any
  table from the C++ one's size to the Rust one's, for every request whose class the table has; the Rust table has
  every request's (`SlabSpec.AlwaysClassed`).
- Door, cpp/xpute/guest/ipc/door.hpp:77-99. The bound on events holds for a turn exactly where what one command raises
  and what the turn raises after its drain are together within it: `Doors.CreditRule`. With both at the bound the ring
  can be full (`Doors.BothMayNotReachTheBound`).
- Encoder, cpp/xpute/gpu/encode.hpp:546-560. `end` and `submit` write their record for any handle, and the host reads
  only its slot: a stale handle whose slot was taken again lets the new object go on the host alone.
  `GpuRuns.SubmittedTwice` is a run of calls that does it, `GpuDrifts.FreedMatch` the condition.
- Encoder, lines 538-564. `destroy`, `end` and `submit` let a handle go even where their record is dropped with its
  transaction, and the rollback takes back only what was made in it: a handle made before is then gone on the guest and
  not on the host. `GpuRuns.DestroyedThenSpilled` is a run of calls that does it; `Gpus.Gpu.Commit` and
  `GpuDrifts.SpilledIff` are the condition.
- Encoder, lines 430-479. A pipeline whose optional value is the one that stands for none, or whose names are not UTF-8, is
  not the one the host sees: `GpuRecords.LayoutLost` is such a pipeline, `GpuRecords.SeenIffPlain` the condition.
- JSON, cpp/xpute/kit/codec/json.cpp:274-318. The check accepts a string of any bytes past ASCII; read character by
  character, one that ends short of what its last first byte says is read past its end. `JsonSteps.AcceptedAndPast`,
  `JsonSteps.PastIff`, `JsonSteps.InsideIff`; over UTF-8 it does not happen (`JsonStrings.TextInside`).

## Left out

- JsonStrings.EqStr: a string with an escape whose decoding goes past its end; what is read there is not modelled.
- JsonWalks.Get: as `JsonStrings.EqStr`, of a key.
- JsonMeanings.Walk: as `JsonStrings.EqStr`, of any string.
- JsonMeanings.Parse: as `JsonMeanings.Walk`; `JsonReads.ReadJson` is of any bytes.
- SlabMallocs.SlabMalloc.Alloc: a request whose class is past the C++ table, which the C++ reads past its end.
- SlabMallocs.SlabMalloc.Dealloc: as `SlabMallocs.SlabMalloc.Alloc`.
- Doors.Door.Drain: what a command answers and raises is given with the call, not computed.
- Ticks.Tick.RunPhase: which ids a step asks off is given by a function of the steps run so far; a step that registers
  another as it runs, and the times, are not modelled.
- Handles.Table: the epoch is unbounded, as its 64 bits are for any program that ends.
- Ticks.Tick.OnTick: ids are unbounded, where the 32-bit counter would come round.
- Heaps.Heap: keys are integers; a NaN, which has no order, is not a key.
- The buddy over pointers of 8 bytes: the links and headers are laid out for wasm32 alone.
- The GPU ops but RENDER_PIPELINE, whose records follow it, and all that calls into a device.
- What a packet's reader does past `get_deep`: the typed getters, iteration, sections and tables of contents.
- The compiler's and the processor's reordering of the ring's accesses: each access is one step, in program order.
- The hexadecimal codec, TLV, files, clocks, threads and process memory, floating point and numbers out of text.
- Reporting of faults: what the code ensures is a precondition or proved.
