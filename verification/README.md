# A model of the nghttp2 library

nghttp2 is a C implementation of HTTP/2 (RFC 7540) and its header compression HPACK (RFC 7541). This project
models the parts of its `lib/` directory whose correctness is hard to see, and proves what they keep.

* **HPACK.** `IntCodec`, `HuffmanTable`, `Huffman`, `HuffmanInverse`, `StaticTable`, `StaticNames` and `DynamicTable` are
  the formats; `Deflate` and `Inflate` are a reference encoder and a reference decoder that reads one byte at a time.
  `HpackGrammar` is what a block means after RFC 7541, independent of both, and what the decoder does on every byte
  string; `InflateLimits` is about its limits, `DeflateChoice` about what the encoder chooses, announces and keeps out of
  the table. `RingBuffer`, `TableObject`, `Buffers`, `HuffmanEncoder`, `DeflaterObject` and `InflaterObject` are the
  objects the library updates in place, each proved to do what the reference does. `HeaderSync` proves the round trip
  over whole connections, `HeaderBlock` and `HeaderExchange` lift it to the objects, `DeflateBound` is about the size
  bound. `InflateRuns` relates chunks to bytes.
* **Frames.** `FrameHeader` and `HeaderFrames` cut a header block into HEADERS and CONTINUATION frames and read them
  back; `FrameGrammar` is what frames say when each is looked at as a whole; `FrameExchange` joins them
  with the two compressors.
* **Priorities.** `DepLinks` is the pointer structure of the dependency tree, `DepQueues` which stream waits in which
  queue, `DepWeights` the weights, `DepTree` and `DepSession` what the operations keep, `PriorityTree` the operations
  themselves. `Scheduler` is the virtual time of one queue with 64-bit wraparound against unbounded time,
  `QueueHistory` what is known of its order whatever happened to it. `DepSchedule` shows that the queues of a whole tree
  go through its steps, `DepHeaps` that the heap of every stream follows. `SchedulerFairness` is what siblings get,
  `PriorityQueue` the intrusive heap, `StreamQueue` the heap ordered by virtual time.
* **Flow control.** `FlowControl` is one window between two endpoints over ordered channels, `FlowPeer` the same with a
  peer that ignores it.
* **Sessions.** `SettingsFold` is the folding of a SETTINGS frame, `StreamCounters` the streams and their counters,
  `HttpMessage` the validation of requests.

Objects are classes. Where an object has many fields they are one record, so that a step is one assignment; the
streams of a session are maps from stream identifiers, which stand for pointers, to the fields. Ghost fields say what a
structure represents: the entries of the ring, the lists of children and the ranks of a tree, the run a queue has gone through.

Eight properties turned out not to hold as one would wish, and are stated with the exact condition:

* `nghttp2_hd_deflate_bound` is too small for fields of 2^28 bytes and more (`DeflateBound.FieldFitsExactly`,
  `DeflateBound.BoundTooSmall`).
* Moving a stream whose children are queued resets the base of its queue. stream_less is an order of a queue exactly if
  its cycles are pairwise near (`Scheduler.OrderIff`), so that after a move the order survives exactly as long as every
  stream that joins, is rescheduled or changes its weight gets a cycle near all others (`Scheduler.MovedOrder`,
  `Scheduler.JoinsOrder`). If a choice comes first nothing is lost (`Scheduler.MovedThenChosen`); a join and a weight
  change that do lose the order are given (`Scheduler.MovedLosesOrder`, `Scheduler.ReweighLosesOrder`).
* Changing the weight of a stream and changing it back does not always restore its virtual time: what it was charged
  from is kept exactly if its penalty was below every weight on the way (`Scheduler.ReweighsBalance`,
  `Scheduler.PenaltyDrifts`).
* After several size changes the inflater does not always insist on the smallest: it does exactly if the last change that
  went down went down to it (`InflateLimits.SmallestIff`, `InflateLimits.SmallestForgotten`).
* When the initial window of streams shrinks, the receiver may reset a stream whose peer kept to its window
  (`FlowControl.SentFailsIff`, `FlowControl.ShrinkingFails`).
* With manual updates, own WINDOW_UPDATE frames of the application may later make consuming fail
  (`FlowControl.RunFailsIff`, `FlowControl.SubmitManualIff`, `FlowControl.ManualFails`).
* Lowering the window and raising it again, with all credit used in between, may leave the sender without credit and no
  WINDOW_UPDATE due (`FlowControl.PromptIff`, `FlowControl.RestoreStalls`).
* Folding a SETTINGS frame may hide an error that applying its entries in order would raise
  (`SettingsFold.FoldSameIff`, `SettingsFold.FoldHidesError`).

## Model

| member | source | states |
|---|---|---|
| `IntCodec.CountEncodedLength` | lib/nghttp2_hd.c:789-804 | the count is the length of the encoding of section 5.1 of RFC 7541, whatever the first byte holds besides the prefix |
| `IntCodec.EncodeDigits` | lib/nghttp2_hd.c:819-828 | the loop writes exactly the continuation bytes of the encoding after the given position and touches nothing else |
| `IntCodec.EncodeLength` | lib/nghttp2_hd.c:806-829 | the buffer starts with exactly the encoding of the number, the other bits of the first byte and the rest of the buffer unchanged |
| `IntCodec.DecodeLength` | lib/nghttp2_hd.c:848-910 | result, consumed bytes, shift and verdict are those of the byte-at-a-time decoder resumed where the last call stopped, including the 32-bit overflow checks |
| `IntCodec.IntRoundTrip` | lib/nghttp2_hd.c:806-910 | decoding the encoding of any 32-bit number gives it back and stops at its last byte, whatever follows |
| `IntCodec.IntExact` | lib/nghttp2_hd.c:831-910 | any encoding, the shortest or not, decodes to the value it stands for and stops at its last byte, unless that takes more than 32 bits or the continuation more than five bytes: then it is refused |
| `HuffmanTable.TableIsCanonical` | lib/nghttp2_hd_huffman_data.c:29-95 | every entry of the symbol table is the leaf that the canonical code of its length assigns it, so the code is prefix-free |
| `Huffman.EntryEmitsAtMostOne` | lib/nghttp2_hd_huffman.c:205-222 | a step on half a byte never completes two symbols, so one flag and one symbol per table entry suffice |
| `Huffman.ByteIsTwoNibbles` | lib/nghttp2_hd_huffman.c:208-225 | decoding a byte bit by bit is two table steps |
| `Huffman.HuffDecode` | lib/nghttp2_hd_huffman.c:198-231 | output, state and verdict are those of the bit-by-bit walk of the code tree from the state of the last call; at most two symbols come out per byte read |
| `Huffman.HuffEncodeCount` | lib/nghttp2_hd_huffman.c:141-150 | the count is the length of the padded encoding |
| `Huffman.WalkPadding` | lib/nghttp2_hd_huffman.c:179-188 | up to seven one-bits after the last symbol leave the decoder accepting and emit nothing |
| `Huffman.HuffRoundTrip` | lib/nghttp2_hd_huffman.c:152-231 | the decoder accepts the padded encoding of any string and returns the string |
| `HuffmanInverse.DecodeExact` | lib/nghttp2_hd_huffman.c:198-231 | the decoder accepts a byte string, with a text, exactly if it is the padded encoding of that text: no other padding, no end-of-string symbol, no second encoding |
| `HuffmanEncoder.EncodeSym` | lib/nghttp2_hd_huffman.c:40-139 | after one symbol the written bytes and the pending bits are the previous ones followed by the code, on the fast and the slow path; failure only when the chain is full |
| `HuffmanEncoder.HuffEncodeInto` | lib/nghttp2_hd_huffman.c:152-191 | the chain gains exactly the padded codes of the string, for every layout of chunks, and this fails exactly when they do not fit |
| `Buffers.Bufs.constructor` | lib/nghttp2_buf.c:125-154 | an empty chain with the promised room |
| `Buffers.Bufs.Reserved` | lib/nghttp2_frame.c:345-350 | the same with the first bytes of the first buffer kept for a field |
| `Buffers.Bufs.AllocChain` | lib/nghttp2_buf.c:301-331 | moving to the next buffer neither loses contents nor room, and fails only without room |
| `Buffers.Bufs.Add` | lib/nghttp2_buf.c:333-359 | appends all bytes across buffers, or fails exactly when they do not fit |
| `Buffers.Bufs.EnsureAddB` | lib/nghttp2_buf.c:361-377 | afterwards the current buffer has room, or the chain is full |
| `Buffers.Bufs.AddB` | lib/nghttp2_buf.c:379-390 | appends one byte, or fails exactly when the chain is full |
| `Buffers.Bufs.AddBHold` | lib/nghttp2_buf.c:392-403 | sets the byte past the written part without appending it |
| `DynamicTable.EvictFits` | lib/nghttp2_hd.c:1218-1238 | after eviction the table fits the bound |
| `DynamicTable.EvictTwice` | lib/nghttp2_hd.c:1218-1238 | evicting to two bounds in turn is evicting to the smaller one |
| `DynamicTable.SizeIsText` | lib/nghttp2_hd.c:777-779 | the size of a table is the length of all its names and values and 32 for each entry |
| `DynamicTable.EvictLongest` | lib/nghttp2_hd.c:1218-1238 | eviction leaves the longest run of newest entries that fits: no entry goes that could stay |
| `DynamicTable.LongestIsUnique` | lib/nghttp2_hd.c:1218-1238 | and nothing else is that |
| `DynamicTable.InsertKeeps` | lib/nghttp2_hd.c:1095-1159 | an insertion leaves the new entry before the longest run of older ones it leaves room for, and an empty table exactly if it does not fit at all |
| `DynamicTable.InsertFits` | lib/nghttp2_hd.c:1095-1159 | after an insertion the table is within its maximum, whatever was inserted |
| `RingBuffer.RingBuf.constructor` | lib/nghttp2_hd.c:588-601 | an empty ring whose length is the least power of two that is large enough |
| `RingBuffer.RingBuf.Get` | lib/nghttp2_hd.c:603-607 | the entry at a logical position, newest first |
| `RingBuffer.RingBuf.Reserve` | lib/nghttp2_hd.c:609-632 | growing keeps the sequence of entries |
| `RingBuffer.RingBuf.PushFront` | lib/nghttp2_hd.c:648-662 | the sequence gains the entry at its front, also when `first` wraps below zero |
| `RingBuffer.RingBuf.PopBack` | lib/nghttp2_hd.c:664-667 | the sequence loses its last entry |
| `RingBuffer.SlotAfterPush` | lib/nghttp2_hd.c:605-660 | the masked 64-bit index of every older entry is unchanged by a push, across wraparound |
| `RingBuffer.SlotsDistinct` | lib/nghttp2_hd.c:605-606 | different positions within the length never share a slot |
| `TableObject.ChainFinds` | lib/nghttp2_hd.c:543-570 | for every hash function, searching one bucket finds the same entry as searching all entries |
| `TableObject.PositionFromSeq` | lib/nghttp2_hd.c:1206-1212 | the 32-bit difference of sequence numbers is the position in the ring, across wraparound of the numbers |
| `TableObject.FoundPosition` | lib/nghttp2_hd.c:1206-1214 | the position computed from the entry found in the map is that of the lowest-index match of a linear search |
| `TableObject.HdContext.MapFind` | lib/nghttp2_hd.c:543-570 | returns the newest exact match if there is one, else the newest name match |
| `TableObject.HdContext.MapRemove` | lib/nghttp2_hd.c:572-586 | unlinks exactly this entry from its bucket, wherever it stands, and nothing if it is not there |
| `TableObject.HdContext.EvictOldest` | lib/nghttp2_hd.c:1225-1236 | the table loses its oldest entry; ring, map and size stay consistent |
| `TableObject.HdContext.Shrink` | lib/nghttp2_hd.c:1218-1238 | the table becomes the longest run of its newest entries that fits the maximum; ring, map and size stay consistent |
| `TableObject.HdContext.MakeRoom` | lib/nghttp2_hd.c:1106-1126 | the same with room left for an entry to come |
| `TableObject.HdContext.AddIncremental` | lib/nghttp2_hd.c:1095-1159 | the new entry comes before the longest run of older ones it leaves room for, and an entry that is too large leaves the table empty, as section 4.4 of RFC 7541 says |
| `TableObject.SearchStatic` | lib/nghttp2_hd.c:1167-1189 | the first exact match from the token on, else the token |
| `TableObject.HdContext.SearchTable` | lib/nghttp2_hd.c:1191-1216 | the hash index refines linear search of static and dynamic table |
| `Deflate.SearchSound` | lib/nghttp2_hd.c:1191-1216 | an index found names the same name, and an exact one the same field |
| `StaticNames.TokenOfName` | lib/nghttp2_hd.c:120-518 | the token of the name of an entry is the first entry with that name |
| `DeflateChoice.SearchComplete` | lib/nghttp2_hd.c:1191-1216 | the search misses nothing: it is exact exactly if either table holds the field and more than the name is asked for, and gives an index exactly if either table holds the name |
| `DeflateChoice.ModeIff` | lib/nghttp2_hd.c:1321-1368 | authorization, short cookies and what the application marks are never indexed; a list of volatile fields and fields larger than three quarters of the table are not; all others are |
| `DeflateChoice.SecretNotInserted` | lib/nghttp2_hd.c:1363-1430 | a field that is never to be indexed leaves the table as it is |
| `DeflateChoice.AlwaysClean` | lib/nghttp2_hd.c:1240-1483 | over every connection, whatever is sent and however the size changes, no such field gets into the table |
| `DeflateChoice.ServedFits` | lib/nghttp2_hd.c:1240-1483 | over every connection the table stays within the limit of the application, whatever the peer sets |
| `DeflateChoice.FreshFits` | lib/nghttp2_hd.c:691-718 | the same from the initial state, which is that of an inflater unless the application allows less, and then that is announced |
| `DeflateChoice.Announced` | lib/nghttp2_hd.c:1240-1254 | after a block the next one has to announce the smallest of the sizes asked for since, and the last one, and nothing exactly if there was none |
| `DeflateChoice.ChoiceIff` | lib/nghttp2_hd.c:1336-1432 | a field is sent as an index exactly if it is known and may be indexed; otherwise its name is one exactly if that is known; and it is entered in the table exactly if it is neither secret nor volatile nor too large |
| `DeflateChoice.ShorterForm` | lib/nghttp2_hd.c:966-1009 | of the two forms of a string the shorter is sent, raw if they are equal, and the first bit tells which |
| `DeflateChoice.FieldWritten` | lib/nghttp2_hd.c:912-1093 | the bytes written for a field are that representation in the grammar of section 6 of RFC 7541 |
| `DeflateChoice.UpdatesWritten` | lib/nghttp2_hd.c:1443-1464 | a block opens with size updates exactly if one is due: the smallest size if the last is larger, and the last |
| `DeflaterObject.EmitInt` | lib/nghttp2_hd.c:912-964 | appends the integer or fails exactly when it does not fit |
| `DeflaterObject.EmitString` | lib/nghttp2_hd.c:966-1009 | appends the string literal, Huffman coded exactly when that is shorter, or fails exactly when it does not fit |
| `DeflaterObject.EmitIndexedName` | lib/nghttp2_hd.c:1027-1067 | appends a literal field with an indexed name, or fails exactly when it does not fit |
| `DeflaterObject.EmitNewName` | lib/nghttp2_hd.c:1069-1093 | appends a literal field with a new name, or fails exactly when it does not fit |
| `DeflaterObject.HdDeflater.constructor` | lib/nghttp2_hd.c:696-718 | the initial state, with a size update due if the application allows less than 4096 bytes |
| `DeflaterObject.HdDeflater.ChangeTableSize` | lib/nghttp2_hd.c:1240-1254 | the state of the reference deflater: cut table, new maximum, pending minimum |
| `DeflaterObject.HdDeflater.DeflateNv` | lib/nghttp2_hd.c:1336-1432 | appends the representation chosen by the reference and updates the table as it does |
| `DeflaterObject.HdDeflater.EmitSizeUpdates` | lib/nghttp2_hd.c:1443-1464 | the block opens with the smallest size and then the last one, as section 4.2 of RFC 7541 asks |
| `DeflaterObject.HdDeflater.DeflateHdBufs` | lib/nghttp2_hd.c:1434-1483 | appends the block of the reference deflater, and succeeds exactly if it fits and no earlier block failed |
| `DeflateBound.ComputeBound` | lib/nghttp2_hd.c:1550-1575 | the loop computes the bound |
| `DeflateBound.FieldFitsExactly` | lib/nghttp2_hd.c:1336-1432 | a field takes at most 12 bytes more than its name and value exactly unless it is new and both strings are sent raw with six-byte lengths |
| `DeflateBound.BlockFits` | lib/nghttp2_hd.c:1550-1575 | no block of fields shorter than 2^28 bytes exceeds the bound, for any table sizes up to 2^32-1 |
| `DeflateBound.BoundTooSmall` | lib/nghttp2_hd.c:1550-1575 | without that limit the bound fails: thirteen fields of 2^28+127 bytes need one byte more |
| `Inflate.RunAppend` | lib/nghttp2_hd.c:1858-2225 | the reference inflater on a concatenation is the inflater on the first part continued on the second |
| `InflateRuns.LengthOutcome` | lib/nghttp2_hd.c:1640-1666 | reading a length byte by byte gives what the integer decoder gives on all its bytes, with the limit checked at the end or at any stop |
| `InflateRuns.RawChunk` | lib/nghttp2_hd.c:1713-1721 | reading a raw string byte by byte appends the whole chunk |
| `InflateRuns.HuffChunk` | lib/nghttp2_hd.c:1681-1699 | reading a Huffman string byte by byte appends what the whole chunk decodes to, or fails |
| `InflaterObject.HdInflater.constructor` | lib/nghttp2_hd.c:720-754 | the initial state |
| `InflaterObject.HdInflater.ChangeTableSize` | lib/nghttp2_hd.c:1256-1286 | the state of the reference inflater; refused in the states where the source refuses it |
| `InflaterObject.HdInflater.ReadLength` | lib/nghttp2_hd.c:1640-1666 | a partial, finished or failed length is that of the byte-at-a-time inflater |
| `InflaterObject.HdInflater.ReadHuff` | lib/nghttp2_hd.c:1681-1699 | a Huffman chunk is read as the byte-at-a-time inflater reads it, and the string so far always fits the buffer of twice its length and one byte, over any number of calls |
| `InflaterObject.HdInflater.ReadRaw` | lib/nghttp2_hd.c:1713-1721 | a raw chunk is read as the byte-at-a-time inflater reads it |
| `InflaterObject.HdInflater.CommitLiteral` | lib/nghttp2_hd.c:1745-1823 | emits the field and inserts it if its representation asks for that |
| `InflaterObject.HdInflater.InflateHdNv` | lib/nghttp2_hd.c:1858-2225 | each call emits the next field, consumes all input or fails exactly as the byte-at-a-time inflater does on the same bytes, wherever the input was cut |
| `InflaterObject.HdInflater.EndOfHeaders` | lib/nghttp2_hd.c:2227-2231 | ready for the next block |
| `HeaderBlock.InflatePiece` | lib/nghttp2_session.c:3562-3701 | fields, verdict and state for one piece are those of the reference inflater |
| `HeaderBlock.InflateBlock` | lib/nghttp2_session.c:3562-3701 | chunk invariance: fields, final table and verdict depend only on the concatenation of the pieces |
| `HpackGrammar.InflaterDecodes` | lib/nghttp2_hd.c:1858-2225 | for every byte string, the inflater accepts exactly the blocks that the grammar and the rules of RFC 7541 give a meaning, with the fields they mean and the table and limits they lead to |
| `InflateLimits.ServedBounded` | lib/nghttp2_hd.c:1256-2225 | whatever bytes arrive, in whatever pieces, blocks and size changes in between, the table is within its maximum and that within the setting |
| `InflateLimits.FreshBounded` | lib/nghttp2_hd.c:720-754 | the same from the initial state |
| `InflateLimits.UpdateIff` | lib/nghttp2_hd.c:1880-1952 | a size update, however it is encoded, is refused exactly after a field or above the smaller of the two limits; otherwise it cuts the table to its size |
| `InflateLimits.UpdateFirst` | lib/nghttp2_hd.c:1880-1889 | while an update is due a block that opens with anything else is refused |
| `InflateLimits.ResizedExact` | lib/nghttp2_hd.c:1256-1286 | what any list of size changes leaves: an update is due exactly if one of them went down, limited by the last that did |
| `InflateLimits.SmallestIff` | lib/nghttp2_hd.c:1256-1286 | after any list of size changes the inflater accepts exactly the updates to no more than each of them if and only if the last change that went down went down to the smallest |
| `InflateLimits.SmallestForgotten` | lib/nghttp2_hd.c:1256-1286 | after 1000, 2000 and 1500 an update to 1500 is accepted |
| `HeaderSync.LengthRun` | lib/nghttp2_hd.c:806-910 | the inflater reads back every integer the deflater writes |
| `HeaderSync.FieldRun` | lib/nghttp2_hd.c:1336-1432 | the inflater reads back every field representation and updates its table as the deflater does |
| `HeaderSync.ListRun` | lib/nghttp2_hd.c:1465-1475 | the same for a list of fields |
| `HeaderSync.InitiallyLinked` | lib/nghttp2_hd.c:696-754 | a fresh deflater and a fresh inflater are in step |
| `HeaderSync.ResizeKeepsLink` | lib/nghttp2_hd.c:1240-1286 | the same table-size change on both sides keeps them in step and is never refused |
| `HeaderSync.BlockRoundTrip` | lib/nghttp2_hd.c:1434-1483 | a block of the deflater is accepted, yields the fields in order, and leaves equal tables and maxima |
| `HeaderSync.ConnectionRoundTrip` | lib/nghttp2_hd.c:1240-1483 | for every interleaving of header lists and size changes all fields arrive unchanged and the two ends stay in step |
| `HeaderSync.FreshConnection` | lib/nghttp2_hd.c:691-754 | the same from the initial states, for every table size the application allows |
| `HeaderExchange.Transfer` | lib/nghttp2_hd.c:1434-2231 | the two objects joined by a buffer chain of any layout: the fields arrive unchanged, the tables are equal, and the next list may follow |
| `FrameHeader.HdRoundTrip` | lib/nghttp2_frame.c:37-51 | unpacking a packed frame header gives it back |
| `FrameHeader.HdLayout` | lib/nghttp2_frame.c:37-51 | for every nine octets: length, type, flags and stream in network order with the reserved bit ignored, and packing gives the octets back but for that bit |
| `FrameHeader.PriRoundTrip` | lib/nghttp2_frame.c:374-394 | unpacking a packed priority field gives it back, exclusive bit and weight included |
| `FrameHeader.PriLayout` | lib/nghttp2_frame.c:374-394 | for every five octets: exclusive flag, stream and weight, and packing gives the octets back |
| `FrameHeader.FlagsExact` | lib/nghttp2_frame.c:297-299 | setting and clearing a flag changes that bit and no other, and the mask of a receiver keeps the four flags of HEADERS and no other |
| `FrameHeader.FlagBits` | lib/nghttp2_frame.c:297-299 | clearing and setting END_HEADERS leaves the other flags alone |
| `FrameHeader.MaskBits` | lib/nghttp2_session.c:5539-5541 | the mask of a receiver keeps the four flags of HEADERS |
| `HeaderFrames.PackHeadersShared` | lib/nghttp2_frame.c:280-334 | the loop over the chain writes HEADERS and CONTINUATION frames of which only the last carries END_HEADERS |
| `HeaderFrames.ReadAppend` | lib/nghttp2_session.c:6143-6432 | reading octets in two runs is reading them in one |
| `HeaderFrames.MemRecv` | lib/nghttp2_session.c:5535-6432 | the reading loop, which takes as many octets as are there, does what reading them one by one does, padding and flag mask included, and hands on the pieces of the block |
| `HeaderFrames.ContinuationFrame` | lib/nghttp2_session.c:6373-6428 | a CONTINUATION frame adds its payload to the block, and the last one ends it |
| `HeaderFrames.HeadersFrame` | lib/nghttp2_session.c:5535-5970 | a HEADERS frame, padded or not, with a priority field or not, gives its part of the block |
| `HeaderFrames.AddPad` | lib/nghttp2_frame.c:1062-1134 | padding a packed frame gives the frame of the padded payload, with the frames after it unchanged |
| `HeaderFrames.PaddingIsZero` | lib/nghttp2_frame.c:1062-1134 | the padded payload is the payload between the length of the padding and that many zeros |
| `HeaderFrames.Reassembled` | lib/nghttp2_session.c:5535-6432 | whatever the block and however it was cut and padded, the frames read back as the block, the stream, the priority and the flags that HEADERS has, for every flags byte |
| `FrameGrammar.ReaderParses` | lib/nghttp2_session.c:5470-6432 | for every string of octets the reader fails, waits or is done exactly as the frames in it say when each is looked at as a whole, and then has their flags, stream, priority and block |
| `FrameExchange.PackHeaders` | lib/nghttp2_frame.c:336-372 | the frames hold exactly the block, every payload is at most 16384 bytes with the priority field in the first, and this fails exactly when the chain is too short |
| `FrameExchange.PadHeaders` | lib/nghttp2_session.c:1850-1912 | any padding the application may choose fits the first frame |
| `FrameExchange.ReadSegments` | lib/nghttp2_session.c:5372-6773 | the reading result does not depend on how the transport cuts the octets, and the pieces handed on make the block |
| `FrameExchange.Exchange` | lib/nghttp2_frame.c:336-372 | deflate, cut into frames, pad, transport cut anywhere, reassemble, inflate the pieces as they come: fields, priority, stream and flags arrive unchanged, the tables are equal, and the next list may follow |
| `Scheduler.Recovered` | lib/nghttp2_stream.c:271-283 | the penalty and virtual time before the last charge are recovered up to whole cycles |
| `Scheduler.ChargeBalance` | lib/nghttp2_stream.c:136-144 | a charge moves the virtual time on by 256 for each byte written and the penalty, divided by the weight, and leaves the remainder as penalty |
| `Scheduler.BalanceIsCharge` | lib/nghttp2_stream.c:136-144 | no other result does |
| `Scheduler.ReweighIsCharge` | lib/nghttp2_stream.c:247-301 | changing the weight of a charged stream is having charged it with the new weight, raised to the base |
| `Scheduler.ReweighsBalance` | lib/nghttp2_stream.c:247-301 | after any number of weight changes that do not meet the base a stream is where one charge with its last weight brings it, and the time and penalty it was charged from are unchanged exactly if that penalty is below all these weights |
| `Scheduler.ReweighsAreOne` | lib/nghttp2_stream.c:247-301 | so such changes together are one charge with the last weight |
| `Scheduler.PenaltyDrifts` | lib/nghttp2_stream.c:271-283 | otherwise not: a change to weight 1 and back turns the penalty into as many whole cycles |
| `Scheduler.StepCharge` | lib/nghttp2_stream.c:146-301 | in every queue a push, a rescheduling and a weight change leave all other streams and the base alone, and the one stream with what it owes |
| `Scheduler.ReweighInWindow` | lib/nghttp2_stream.c:247-301 | a weight change keeps the virtual time within the window of the base, after any number of earlier changes |
| `Scheduler.InvariantStep` | lib/nghttp2_stream.c:136-301 | every queue operation keeps every queued virtual time between the base and the base plus the maximal distance |
| `Scheduler.LessAgrees` | lib/nghttp2_stream.c:47-58 | within that window the comparison of wrapped cycles is the comparison of unbounded virtual times |
| `Scheduler.StepAgrees` | lib/nghttp2_stream.c:136-301 | the 64-bit queue and the unbounded one may take the same steps and stay related |
| `Scheduler.RunsAgree` | lib/nghttp2_stream.c:136-301 | over every run of push, remove, choose, reschedule, weight change and reset the two make the same choices |
| `Scheduler.ReachableOrder` | lib/nghttp2_stream.c:44-58 | in every reachable queue stream_less is a strict total order, however often cycles have wrapped |
| `Scheduler.MovedThenChosen` | lib/nghttp2_stream.c:883-943 | if the next thing that happens to the queue of a moved stream is a choice, it is the right one and the order is kept |
| `Scheduler.OrderIff` | lib/nghttp2_stream.c:44-58 | for every queue with 64-bit cycles, whatever its base, stream_less is a strict total order exactly if the cycles are pairwise within the maximal distance, around the wrap |
| `Scheduler.StepOrder` | lib/nghttp2_stream.c:136-301 | one more step of an ordered queue, whatever its base, keeps the order exactly if the cycle it gives to one stream is near those of all others |
| `Scheduler.ThroughoutIff` | lib/nghttp2_stream.c:136-301 | the same over whole runs |
| `Scheduler.JoinOrder` | lib/nghttp2_stream.c:136-195 | in any ordered queue, a stream that joins after a move leaves a strict total order exactly if its charge is within the maximal distance of every cycle there, around the wrap |
| `Scheduler.JoinsOrder` | lib/nghttp2_stream.c:805-854 | streams that join one after the other, as the former children of a parent do, leave an order throughout exactly if each charge is near every cycle that was there before: they do not get in the way of each other |
| `Scheduler.MovedOrder` | lib/nghttp2_stream.c:136-301 | after the move of a stream, from every reachable queue and over every further run of pushes, removals, choices, reschedulings, weight changes and resets, the queue stays ordered exactly as long as each step gives its stream a cycle near all others |
| `Scheduler.MovedLosesOrder` | lib/nghttp2_stream.c:883-916 | a three-step run after which such a move leaves two siblings without an order |
| `Scheduler.ReweighLosesOrder` | lib/nghttp2_stream.c:247-301 | a four-step run after which a move and a weight change of one of the two children leave them without an order |
| `Scheduler.SeqWrapIff` | lib/nghttp2_stream.c:44-58 | two streams whose sequence numbers differ by less than 2^64 compare alike with 64-bit numbers exactly if their cycles differ or both numbers lie in the same span of 2^64 |
| `Scheduler.SeqFits` | lib/nghttp2_stream.c:136-245 | sequence numbers stay below 2^64 over every run of fewer steps |
| `SchedulerFairness.FairRun` | lib/nghttp2_stream.c:136-245 | weight times virtual time plus penalty grows by exactly 256 per byte sent, and siblings stay within one charge, over every run |
| `SchedulerFairness.SiblingsStayClose` | lib/nghttp2_stream.c:225-245 | the sibling that is ahead is ahead by at most its charge for one maximal frame |
| `SchedulerFairness.WeightedFairness` | lib/nghttp2_stream.c:136-245 | two siblings that stay queued share bytes in proportion to their weights up to a constant, however long the run |
| `PriorityQueue.RootLeast` | lib/nghttp2_pq.c:90-96 | in a heap no entry is before the root |
| `PriorityQueue.Pq.Swap` | lib/nghttp2_pq.c:46-54 | swaps two entries and their positions |
| `PriorityQueue.Pq.BubbleUp` | lib/nghttp2_pq.c:56-66 | the same entries with right positions, and heap order restored above a hole if the comparison is an order |
| `PriorityQueue.Pq.BubbleDown` | lib/nghttp2_pq.c:98-117 | the same below a hole |
| `PriorityQueue.Pq.LeastOf` | lib/nghttp2_pq.c:101-112 | the least of an entry and its children |
| `PriorityQueue.Pq.Push` | lib/nghttp2_pq.c:68-88 | exactly one entry more and right positions, whatever the comparison is; a heap stays one if the comparison is an order with the new entry |
| `PriorityQueue.Pq.Top` | lib/nghttp2_pq.c:90-96 | a queued entry, or nothing exactly when empty; in a heap no queued entry is before it |
| `PriorityQueue.Pq.Pop` | lib/nghttp2_pq.c:119-126 | exactly the top is gone; a heap stays one |
| `PriorityQueue.Pq.Remove` | lib/nghttp2_pq.c:128-150 | exactly that entry is gone from the middle and the positions are right, whatever the comparison is; a heap stays one |
| `PriorityQueue.Pq.Update` | lib/nghttp2_pq.c:156-170 | after all keys have changed the same entries form a heap in the new order |
| `QueueHistory.LogStep` | lib/nghttp2_stream.c:136-301 | whatever happens to a queue, what its history tells of it stays true: a run of the unbounded scheduler, an order kept after a move, or nothing |
| `QueueHistory.HistoryOrder` | lib/nghttp2_stream.c:44-58 | in every queue that is not lost stream_less is a strict total order |
| `QueueHistory.SoundOrder` | lib/nghttp2_stream.c:44-58 | in a queue that has gone through a run, also with its base reset since, the top is exactly the first in unbounded time |
| `QueueHistory.LostExactly` | lib/nghttp2_stream.c:136-301 | a queue becomes lost by exactly those steps after which stream_less is no strict total order |
| `QueueHistory.LogTrouble` | lib/nghttp2_stream.c:175-202 | a queue that was never moved stays a run, and a lost one is lost exactly until it is empty |
| `StreamQueue.ObQueue.Push` | lib/nghttp2_stream.c:146-168 | the heap of one stream follows the scheduler when a child is pushed, and is a heap unless this step loses the order |
| `StreamQueue.ObQueue.Remove` | lib/nghttp2_stream.c:183-195 | and when one is removed |
| `StreamQueue.ObQueue.ResetBase` | lib/nghttp2_stream.c:191-195 | the base is reset, in an empty queue or not; the heap stays one, and which later steps keep it is what the history says |
| `StreamQueue.ObQueue.Next` | lib/nghttp2_stream.c:923-943 | the top of the heap, which becomes the base, is first in the order of the queue unless that is lost, and first in unbounded time if the queue has gone through a run |
| `StreamQueue.ObQueue.Reschedule` | lib/nghttp2_stream.c:225-245 | a child is charged and queued again as the scheduler says |
| `StreamQueue.ObQueue.ChangeWeight` | lib/nghttp2_stream.c:247-301 | a queued child changes its weight as the scheduler says: `Scheduler.ReweighIsCharge` and `Scheduler.StepCharge` say what that does |
| `DepLinks.ShapeAdd` | lib/nghttp2_stream.c:635-660 | the pointer writes put the stream first among the children and leave every other list intact |
| `DepLinks.ShapeInsert` | lib/nghttp2_stream.c:805-835 | the pointer writes put the stream above all children of the other, after its own |
| `DepLinks.ShapeTakeOut` | lib/nghttp2_stream.c:883-915 | the pointer writes take the stream and its subtree out of its list |
| `DepLinks.ShapeReplace` | lib/nghttp2_stream.c:662-736 | the pointer writes replace the stream by its children, in place |
| `DepQueues.PushRestores` | lib/nghttp2_stream.c:146-168 | pushing a busy stream and so on upwards makes every queue right |
| `DepQueues.PullRestores` | lib/nghttp2_stream.c:175-202 | removing a stream and then its idle ancestors leaves every other queue right |
| `DepQueues.PullAsserts` | lib/nghttp2_stream.c:175-202 | every stream taken off a queue on the way is queued, as the source asserts, and in the queue of its parent |
| `DepQueues.QueuedIffActiveBelow` | lib/nghttp2_stream.c:345-391 | a stream with a parent is queued exactly when it or a stream below it is active |
| `DepQueues.QueueIffActiveBelow` | lib/nghttp2_stream.c:129-131 | a queue is not empty exactly when a stream properly below is active |
| `DepQueues.AttachRanked` | lib/nghttp2_stream.c:805-881 | hanging a subtree under a stream outside it creates no cycle |
| `DepWeights.ShareRange` | lib/nghttp2_stream.c:310-315 | a share of a weight stays between 1 and that weight |
| `DepWeights.ShareExact` | lib/nghttp2_stream.c:310-315 | a share is the product of both weights over the sum, rounded down, but at least 1 |
| `DepWeights.ShareOrder` | lib/nghttp2_stream.c:310-315 | a heavier child gets no smaller share |
| `DepWeights.SharesFairly` | lib/nghttp2_stream.c:763-775 | every child gets its share, in the order of their weights, all together off the weight shared out by at most one for each child, and nobody else gets anything |
| `DepWeights.WeightsReplace` | lib/nghttp2_stream.c:754-803 | after a removal every sum is again the sum over the children, with weights in 1..256 |
| `DepWeights.WeightsInsert` | lib/nghttp2_stream.c:815-816 | the same after an exclusive insertion |
| `DepSession.OneTree` | lib/nghttp2_session.c:759-832 | following parents from any stream leads to the root |
| `DepSession.RootQueue` | lib/nghttp2_stream.c:923-943 | the queue of the root is empty exactly when no stream is active |
| `DepSession.MayGoAbove` | lib/nghttp2_session.c:796-805 | a descendant may be hung under the parent of its ancestor without making a cycle |
| `DepSchedule.TreeOrder` | lib/nghttp2_stream.c:44-58 | in every queue of a tree that is not lost stream_less is a strict total order |
| `DepSchedule.PushStep` | lib/nghttp2_stream.c:146-168 | one level of the push is a step of one queue and leaves all other queues alone |
| `DepSchedule.TakeStep` | lib/nghttp2_stream.c:210-223 | so is taking a stream out of a queue, also when its weight has just changed |
| `DepSchedule.PullStep` | lib/nghttp2_stream.c:175-202 | one level of the removal is a step of the queue of the parent and a reset of the own queue, harmless if that is empty |
| `DepSchedule.BackAtBase` | lib/nghttp2_stream.c:146-202 | a stream taken off a queue and queued again, under whatever parent and with whatever weight, enters at the base and owes nothing for what it wrote before |
| `DepSchedule.RescheduleStep` | lib/nghttp2_stream.c:225-245 | one level of rescheduling is a step of one queue |
| `DepSchedule.ReweighStep` | lib/nghttp2_stream.c:247-301 | a weight change of a queued stream is a step of one queue |
| `DepSchedule.ChooseStep` | lib/nghttp2_stream.c:923-943 | passing through a queue is a step of that queue |
| `DepHeaps.PqPush` | lib/nghttp2_pq.c:68-88 | nghttp2_pq_push on the queue embedded in a stream |
| `DepHeaps.PqRemove` | lib/nghttp2_pq.c:128-150 | nghttp2_pq_remove on it |
| `DepHeaps.PushTimely` | lib/nghttp2_stream.c:146-168 | after one level of the push every stream of the tree holds exactly its queued children in its heap, which is one unless the order in it is lost |
| `DepHeaps.PullTimely` | lib/nghttp2_stream.c:175-202 | the same after one level of the removal |
| `DepHeaps.RescheduleTimely` | lib/nghttp2_stream.c:225-245 | the same when a stream leaves the heap with its old virtual time and enters it with the new one |
| `DepHeaps.ReweighTimely` | lib/nghttp2_stream.c:247-301 | the same for a weight change |
| `DepHeaps.HeapTop` | lib/nghttp2_stream.c:923-943 | the entry at the root of the heap of any stream of the tree is least in stream_less unless the order is lost, and first in unbounded time after a run |
| `PriorityTree.StreamTree.ObqPush` | lib/nghttp2_stream.c:146-168 | the loop up the tree enqueues as far as the specification says and charges every stream on the way; every queue goes on by a step of the scheduler, and its heap with it |
| `PriorityTree.StreamTree.ObqRemove` | lib/nghttp2_stream.c:175-202 | the loop up the tree dequeues as far as the specification says and resets every stream on the way; only the queue of the first can hold streams then |
| `PriorityTree.StreamTree.ObqMove` | lib/nghttp2_stream.c:210-223 | moves a queued child between queues with what it has written and its penalty |
| `PriorityTree.StreamTree.AttachItem` | lib/nghttp2_stream.c:477-499 | one valid tree with right queues, every queue a run of the scheduler, the stream active |
| `PriorityTree.StreamTree.DetachItem` | lib/nghttp2_stream.c:501-508 | the same, the stream no longer active and not deferred |
| `PriorityTree.StreamTree.DeferItem` | lib/nghttp2_stream.c:510-519 | the same, the stream deferred |
| `PriorityTree.StreamTree.ResumeItem` | lib/nghttp2_stream.c:521-534 | the same, active again only if no reason to defer is left |
| `PriorityTree.StreamTree.DepInsert` | lib/nghttp2_stream.c:589-627 | a new stream is the only child of the other and has its former children in order; links, ranks, sums and queues valid |
| `PriorityTree.StreamTree.DepAdd` | lib/nghttp2_stream.c:738-752 | a new stream is the first child; links, ranks, sums and queues valid |
| `PriorityTree.StreamTree.DepRemove` | lib/nghttp2_stream.c:754-803 | the children take the place of the stream in order and share its weight fairly, as `DepWeights.SharesFairly` says; links, ranks, sums, queues and their runs valid, the queue of the stream empty when its base is reset |
| `PriorityTree.StreamTree.DepInsertSubtree` | lib/nghttp2_stream.c:805-854 | as DepInsert for a whole subtree, the former children after its own |
| `PriorityTree.StreamTree.DepAddSubtree` | lib/nghttp2_stream.c:856-881 | as DepAdd for a whole subtree |
| `PriorityTree.StreamTree.DepRemoveSubtree` | lib/nghttp2_stream.c:883-916 | the subtree is out; the rest is a valid tree; only the queue of the stream itself may have its base reset with streams in it |
| `PriorityTree.StreamTree.SetDepPrev` | lib/nghttp2_stream.c:629-633 | exactly the siblings of the walk get the new parent |
| `PriorityTree.StreamTree.LastSib` | lib/nghttp2_stream.c:303-308 | the last sibling |
| `PriorityTree.StreamTree.UnlinkStream` | lib/nghttp2_stream.c:662-736 | both unlink functions write the pointers of the specification |
| `PriorityTree.StreamTree.ShareOut` | lib/nghttp2_stream.c:763-775 | the loop shares the weight out fairly, moves queued children up and returns the change of the sum |
| `PriorityTree.StreamTree.FindAncestor` | lib/nghttp2_stream.c:579-587 | true exactly for the stream and its ancestors |
| `PriorityTree.StreamTree.ChangeWeight` | lib/nghttp2_stream.c:247-301 | the new weight, the sum of the parent, and the new place in its queue and heap, by the step that `Scheduler.StepCharge` spells out |
| `PriorityTree.StreamTree.Reschedule` | lib/nghttp2_stream.c:225-245 | the stream and all its ancestors are charged for the bytes written and queued again, each in the heap of its parent |
| `PriorityTree.StreamTree.MoveStream` | lib/nghttp2_session.c:794-831 | the parents of all streams are those of section 5.3.3 of RFC 7540, also when the new parent was below the stream; one valid tree |
| `PriorityTree.StreamTree.Reprioritize` | lib/nghttp2_session.c:759-832 | the same with the rules for missing and idle parents; no other queue than those of the two streams is put in trouble |
| `PriorityTree.StreamTree.OpenStream` | lib/nghttp2_session.c:1004-1138 | the stream hangs where its priority resolves to, an idle parent is created under the root, one valid tree |
| `PriorityTree.StreamTree.DestroyStream` | lib/nghttp2_session.c:1228-1249 | the stream is gone, its children belong to its parent, one valid tree |
| `PriorityTree.StreamTree.NextOutboundItem` | lib/nghttp2_stream.c:923-943 | finds a stream with something to send exactly when there is one; at each level it takes what the heap of that stream delivers, which is least in the order of the queue unless that is lost, and first in unbounded time after a run; its cycle becomes the base |
| `FlowControl.LocalWindow.AdjustLocalWindowSize` | lib/nghttp2_helper.c:155-214 | the four integers and the increment are those of the specification, refused cases unchanged; what is advertised minus what is held changes by the increment |
| `FlowControl.LocalWindow.IncreaseLocalWindowSize` | lib/nghttp2_helper.c:216-246 | the same |
| `FlowControl.LocalWindow.UpdateConsumedSize` | lib/nghttp2_session.c:5095-5131 | the same, with the WINDOW_UPDATE queued |
| `FlowControl.LocalWindow.SubmitWindowUpdate` | lib/nghttp2_submit.c:375-419 | the same, with what was consumed reduced by the increment |
| `FlowControl.LocalWindow.SetLocalWindowSize` | lib/nghttp2_submit.c:421-487 | the same, in both directions |
| `FlowControl.AdjustBalance` | lib/nghttp2_helper.c:155-214 | what is advertised minus what is held changes by exactly the increment to send |
| `FlowControl.AdjustRaise` | lib/nghttp2_helper.c:155-214 | raising the size takes back received bytes first and then enlarges the window, paying off an earlier reduction; refused exactly if the window would become too large |
| `FlowControl.AdjustLower` | lib/nghttp2_helper.c:190-213 | lowering it is remembered as a reduction, and refused exactly if one of three counts would overflow |
| `FlowControl.SetExact` | lib/nghttp2_submit.c:421-487 | the size set is the size there is, and what is sent and what pays off a reduction add up to the change |
| `FlowControl.ReceiveIff` | lib/nghttp2_session.c:5003-5093 | DATA is refused exactly if it does not fit in the window or in 31 bits, and otherwise counted, with everything returned when half of the window is used up and no update is queued |
| `FlowControl.ShouldSendIff` | lib/nghttp2_helper.c:248-251 | an update is due exactly when half of the window, rounded down, is used up |
| `FlowControl.ConsumeExact` | lib/nghttp2_session.c:5095-5131 | consumed bytes are returned exactly when they make half of the window and no update is queued, none twice, and refused exactly past 2^31-1 |
| `FlowControl.LowerAndRestore` | lib/nghttp2_submit.c:421-487 | lowering the window and restoring it is the identity and sends nothing |
| `FlowControl.StepConserves` | lib/nghttp2_session.c:5003-5131 | no step loses or makes credit, and every DATA frame on its way fits the room there will be |
| `FlowControl.ChunkAccepted` | lib/nghttp2_session.c:5003-5093 | DATA sent within the window is never refused, however it is cut into chunks |
| `FlowPeer.ChunkErrorIff` | lib/nghttp2_session.c:5003-5093 | DATA of a peer that may send anything is answered with an error exactly if it goes beyond the window |
| `FlowPeer.OverrunRefused` | lib/nghttp2_session.c:5003-5093 | a frame that ignores the window is refused as soon as the part that has arrived is too long |
| `FlowPeer.NeverBeyond` | lib/nghttp2_session.c:5003-5131 | whatever the peer sends, over every run in which no initial size shrinks, the receiver never holds more than it advertises, and takes in exactly what it granted less what is left |
| `FlowPeer.NeverBeyondStart` | lib/nghttp2_session.c:5003-5131 | so no more is taken in than the initial size and everything granted since |
| `FlowPeer.ForwardErrorIff` | lib/nghttp2_session.c:4761-4778 | a WINDOW_UPDATE or a new initial size is an error for the sender exactly if its window would leave 32 bits, and otherwise changes it by just that |
| `FlowPeer.AcknowledgedIff` | lib/nghttp2_session.c:4233-4261 | the receiver follows an acknowledged initial size under the same condition, and what it advertises changes by it and by the increment |
| `FlowControl.RunConserves` | lib/nghttp2_session.c:5003-5131 | conservation and acceptance of DATA over every run, initial-size changes included |
| `FlowControl.UpdateAccepted` | lib/nghttp2_session.c:4761-4778 | a WINDOW_UPDATE on its way never takes the sender past 2^31-1 |
| `FlowControl.FailsIff` | lib/nghttp2_session.c:4761-5131 | without initial-size changes a step of either end fails exactly if it consumes bytes past 2^31-1; all others succeed and keep the bounds of the accounting |
| `FlowControl.RunFailsIff` | lib/nghttp2_session.c:4761-5131 | the same over every run, own WINDOW_UPDATEs included, with the send window within 0 and 2^31-1 |
| `FlowControl.EatSafeIff` | lib/nghttp2_session.c:5095-5110 | whatever part of the unread bytes is consumed, it is accepted, exactly if consumed and unread bytes together are at most 2^31-1 |
| `FlowControl.SubmitManualIff` | lib/nghttp2_submit.c:375-419 | an own WINDOW_UPDATE keeps consumed and unread bytes within those received exactly if it returns consumed bytes, or leaves enough received ones for those unread |
| `FlowControl.BackedWhen` | lib/nghttp2_submit.c:375-419 | as it does when everything has been consumed, or when it is not larger than what has been |
| `FlowControl.RunNeverFails` | lib/nghttp2_session.c:4761-5131 | so no run with automatic updates, and no run with manual ones whose own WINDOW_UPDATEs are such, ever meets an error |
| `FlowControl.RunAccounts` | lib/nghttp2_session.c:5069-5131 | the size less the bytes held is the start plus increments queued minus bytes received |
| `FlowControl.AdjustSteady` | lib/nghttp2_helper.c:155-214 | held bytes plus reduction stay at least 0, size plus reduction at most 2^31-1 |
| `FlowControl.PromptIff` | lib/nghttp2_submit.c:375-487 | the exact condition, on the state before, under which a step leaves the receiver sitting on half of its window with no WINDOW_UPDATE queued, for both modes and every operation |
| `FlowControl.OnlyRaises` | lib/nghttp2_submit.c:375-487 | with automatic updates only raising the size can do so, by either function |
| `FlowControl.PromptRun` | lib/nghttp2_session.c:5069-5131 | over every run that avoids those steps the receiver never sits on half of its window with nothing queued |
| `FlowControl.NoStall` | lib/nghttp2_helper.c:248-251 | so in such a run, when nothing is queued or on its way, the sender has more than half of the window |
| `FlowControl.RestoreStalls` | lib/nghttp2_submit.c:375-487 | a run in which the window is lowered and raised again, by either function, after which the sender has no credit, no WINDOW_UPDATE is queued, and neither side has another step until the application changes the window |
| `FlowControl.SentFailsIff` | lib/nghttp2_session.c:2727-2762 | after a WINDOW_UPDATE was sent the peer is blamed exactly if more is held than is advertised |
| `FlowControl.NoShrinkRun` | lib/nghttp2_session.c:2727-2762 | which never happens if the initial size never shrinks |
| `FlowControl.ShrinkingFails` | lib/nghttp2_session.c:4233-4261 | and does happen in a run when it shrinks, although the peer kept to its window |
| `FlowControl.ManualFails` | lib/nghttp2_submit.c:375-419 | with manual updates, an application that returns bytes before consuming them is later refused |
| `SettingsFold.ReplayByParts` | lib/nghttp2_session.c:4424-4529 | applying a list is applying, for each identifier, its values in order |
| `SettingsFold.FoldHolds` | lib/nghttp2_session.c:5264-5307 | the folded list has each known identifier once with its last value, and every unknown entry |
| `SettingsFold.FoldMin` | lib/nghttp2_session.c:5299-5306 | the extra entry is the smallest header table size |
| `SettingsFold.FinishedReduced` | lib/nghttp2_session.c:4553-4572 | what is handed on has, per identifier, the last value, after the smallest header table size if that differs |
| `SettingsFold.SizesReplayed` | lib/nghttp2_hd.c:1240-1254 | the deflater after a sequence of sizes depends on the smallest and the last only |
| `SettingsFold.WindowsReplayed` | lib/nghttp2_stream.c:545-564 | the window changes of a sequence of initial sizes add up to one |
| `SettingsFold.FoldKeepsMeaning` | lib/nghttp2_session.c:4375-4582 | whenever applying all entries in order raises no error, the folded list gives the same settings, deflater and windows |
| `SettingsFold.ReplayPartIff` | lib/nghttp2_session.c:4424-4529 | the values of one identifier are applied without an error exactly if each is acceptable after those before it, spelled out for every identifier |
| `SettingsFold.FoldedAccepted` | lib/nghttp2_session.c:4547-4582 | the folded list raises no error exactly if the last value of every identifier is acceptable by itself |
| `SettingsFold.FoldSameIff` | lib/nghttp2_session.c:4375-4582 | folding changes the outcome of the frame, settings and error, exactly if every last value is acceptable by itself and some value is not acceptable after those before it |
| `SettingsFold.FoldHidesError` | lib/nghttp2_session.c:4500-4520 | such a frame: it enables and disables the extended CONNECT method |
| `SettingsFold.SettingsFrame.SetEntry` | lib/nghttp2_session.c:5264-5307 | one entry is folded into the array, within its bounds |
| `SettingsFold.SettingsFrame.Finish` | lib/nghttp2_session.c:4547-4575 | the list handed on is the finished fold, and the entry the source asserts is there |
| `SettingsFold.ReadSettings` | lib/nghttp2_session.c:5668-5700 | a whole payload is folded within an array of one more entry than it has |
| `StreamCounters.Settled` | lib/nghttp2_session.c:1093-1120 | when one stream changes its kind, the matching counter changes make all counters right |
| `StreamCounters.Parity` | lib/nghttp2_session.c:266-277 | odd streams are those of the client, even ones of the server, and 0 is nobody's |
| `StreamCounters.Streams.OpenStream` | lib/nghttp2_session.c:1004-1138 | new or reopened idle stream: every counter is the number of streams of its kind, both lists hold exactly theirs |
| `StreamCounters.Streams.CloseStream` | lib/nghttp2_session.c:1140-1226 | the same after closing, with the stream kept or gone as the source decides; refused for missing, closed and idle streams |
| `StreamCounters.Streams.PushResponseSent` | lib/nghttp2_session.c:2630-2635 | the same when a promise of ours is fulfilled |
| `StreamCounters.Streams.PushResponseReceived` | lib/nghttp2_session.c:3980-3984 | the same when a promise of the peer is fulfilled |
| `StreamCounters.Streams.AdjustClosed` | lib/nghttp2_session.c:1311-1358 | the same after the streams closed longest ago are dropped, exactly as many as make room for the incoming ones; no other stream is touched |
| `StreamCounters.Streams.AdjustIdle` | lib/nghttp2_session.c:1360-1402 | the same for idle streams, the oldest first and none while there is room |
| `StreamCounters.Streams.FindOnGoaway` | lib/nghttp2_session.c:2405-2432 | the loop finds exactly the usable streams of one side beyond the last one |
| `StreamCounters.Streams.CloseOnGoaway` | lib/nghttp2_session.c:2405-2477 | the same after GOAWAY: every refused stream is closed, kept or gone as the source decides, and no other is touched |
| `StreamCounters.Streams.NumActive` | lib/nghttp2_session.c:6800-6803 | the difference of sizes is the number of streams neither closed nor idle |
| `HttpMessage.ParseUint` | lib/nghttp2_http.c:52-73 | the number exactly if the string is a decimal number below 2^63, else -1 |
| `HttpMessage.CheckHeaderName` | lib/nghttp2_helper.c:410-427 | the loop accepts exactly non-empty names of such characters, one colon in front allowed unless it is all |
| `HttpMessage.CheckHeaderValue` | lib/nghttp2_helper.c:498-507 | the loop accepts exactly values of such characters |
| `HttpMessage.CheckAuthority` | lib/nghttp2_http.c:376-384 | the loop accepts exactly authorities of such characters, the empty one included |
| `HttpMessage.CheckScheme` | lib/nghttp2_http.c:386-408 | the loop accepts exactly schemes of section 3.1 of RFC 3986 |
| `HttpMessage.Lws` | lib/nghttp2_http.c:75-83 | true exactly for strings of spaces and tabs |
| `HttpMessage.MemIEq` | lib/nghttp2_http.c:38-48 | true exactly if the strings are equal but for case |
| `HttpMessage.NameCharIff` | lib/nghttp2_helper.c:343-427 | a name is made of visible characters but delimiters and capitals |
| `HttpMessage.ValueCharIff` | lib/nghttp2_helper.c:431-507 | a value is made of tabs, spaces, visible characters and bytes outside ASCII |
| `HttpMessage.AuthorityCharIff` | lib/nghttp2_http.c:309-384 | an authority is made of the characters of section 3.2 of RFC 3986 |
| `HttpMessage.CaseBlind` | lib/nghttp2_http.c:34-50 | comparing with a lower-case string is comparing letter by letter without regard to case |
| `HttpMessage.FieldVerdict` | lib/nghttp2_http.c:115-226 | a field is refused exactly when it is not allowed after the fields before it, of the request and of the trailer |
| `HttpMessage.HandedOnIff` | lib/nghttp2_http.c:410-469 | an allowed field is handed to the application exactly if it counts, and dropped without an error otherwise |
| `HttpMessage.BlockHandsOn` | lib/nghttp2_http.c:410-469 | of an accepted block the application gets exactly the fields that count, in order |
| `HttpMessage.FieldTracks` | lib/nghttp2_http.c:115-226 | the flags and the length always say exactly which fields came |
| `HttpMessage.BlockAccepts` | lib/nghttp2_http.c:410-469 | a header block, also a trailer on the state the request left, gets through exactly when every field is allowed where it stands |
| `HttpMessage.RequestAccepts` | lib/nghttp2_http.c:471-506 | the end of the block is accepted exactly for a complete request, with the rules for CONNECT, extended CONNECT and the path |
| `HttpMessage.RequestIff` | lib/nghttp2_http.c:410-506 | both together |
| `HttpMessage.AllowedMeans` | lib/nghttp2_http.c:85-226 | in an accepted block pseudo-header fields come first, are known and stand in no trailer, no connection-specific field counts, and no restricted field comes twice in request and trailer together; a content-length is a number below 2^63 |
| `HttpMessage.RequestState` | lib/nghttp2_http.c:471-506 | what the state says after the request; an ordinary CONNECT forgets its content-length |
| `HttpMessage.PushedState` | lib/nghttp2_http.c:471-506 | of an accepted pushed request only the method is remembered |
| `HttpMessage.CountedUndeclared` | lib/nghttp2_http.c:560-570 | without a declared length the signed 64-bit count of received bytes fits exactly if all that is received does |
| `HttpMessage.CountedDeclared` | lib/nghttp2_http.c:560-570 | with a declared length it fits exactly if all that is received does, or the sum passes the declared length, and is refused, without passing the 64 bits |
| `HttpMessage.CountedRoom` | lib/nghttp2_http.c:560-570 | it fits however much is sent if the declared length leaves room for one more chunk |
| `HttpMessage.FinishedIff` | lib/nghttp2_http.c:537-570 | a body and a trailer are accepted exactly if the trailer is allowed, ends the stream, and the DATA adds up to the content-length, wherever declared |
| `HttpMessage.MessageIff` | lib/nghttp2_http.c:410-570 | the same for a whole message from its first field on |

## Left out

- Allocation failure, reference counting and user callbacks: allocation succeeds, and what a callback decides is a parameter.
- `src/`, the load generator around the library: event loops and plumbing.
- `lib/nghttp2_map.c`: the streams of a session are a finite map.
- The 256 by 16 decoding table of the Huffman decoder: its states are the inner nodes of the code tree, from which its rows follow.
- The hash formulas: the hash index is proved for every hash function. The generated token lookup is the first static entry with the name, or one of six extra tokens.
- Bucket chains of the hash index, the lists of closed and idle streams and the heap array are sequences; their `next` pointers and the growing of the array are not modelled.
- PriorityTree.StreamTree.NextOutboundItem: in a queue whose order was lost by a move the stream taken is the one at the root of the heap, and nothing more is said of it. The heap of a stream is a value that an operation loads, runs and stores.
- Scheduler.RunsAgree: sequence numbers are unbounded; with 64 bits the comparison is the same exactly as `Scheduler.SeqWrapIff` says, so for the first 2^64 steps of a queue (`Scheduler.SeqFits`).
- FlowControl.RunNeverFails: a DATA frame may have any length up to the window, so it may stand for several frames; the limit on the frame size plays no part.
- SettingsFold.FoldKeepsMeaning: deferred DATA that an intermediate window would have resumed is not modelled.
- HttpMessage.MessageIff: received bytes are counted without a limit; that is what the signed 64-bit count does exactly as `HttpMessage.CountedDeclared` and `HttpMessage.CountedUndeclared` say, beyond which the addition is undefined in C. The flags of a stream are a value here, not updated in place. Responses and pushed responses are not modelled.
- FrameGrammar.ReaderParses: the limit on the frame size is its default, and the checks of stream identifiers and priorities that follow once a header is read are not modelled.
- FrameExchange.Exchange: PUSH_PROMISE frames are not modelled, nor other frames between those of a block, which are refused.
- Stream states beyond what counters need, PING, GOAWAY bookkeeping, RST_STREAM limits and the ALTSVC and ORIGIN extensions.
