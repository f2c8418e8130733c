# A verified model of putv's core

putv is an audio streamer written in C. This project models the parts of it where the logic is hard and proves, for
all inputs and all runs, what those parts are for. Each module follows one component of the source in its own form:
objects that the source updates in place are classes, its loops are loops, and what they compute is tied to
specification functions about which the theorems are proved.

| Module | Component | Main results |
|---|---|---|
| `JitterRing` | byte ring, `src/jitter_ring.c` | refines a byte queue; every access is in bounds and every block contiguous |
| `ScatterGather`, `ScatterMachine`, `ScatterThreads`, `ScatterEnd` | slot ring, `src/jitter_sg.c` | two-thread machine: bounded FIFO, exactly when it can deadlock, exactly when the end is noticed |
| `NameCodec`, `PacketCodec`, `DottedName` | mDNS codec, `lib/tinysvcmdns/mdns.c` | names, packets and dotted names round-trip, in exactly their compressed size; packets have the bytes of RFC 1035 |
| `RecordStore`, `ServiceStore`, `Responder`, `Browsing` | record database and responder, `mdns.c`, `mdnsd.c` | database integrity; additional records are the reachable ones; who browses for a service is told all about it |
| `FilterPcm`, `Rescale`, `Channels` | PCM output, `src/filter_pcm.c`, `src/filter_rescale.c` | output independent of chunking; each channel in its place; rounding, order and byte layout |
| `RtpMux`, `RtpDemux`, `RtpDelivery` | RTP leg | conservation end to end; exactly-once delivery under loss and among other sources |
| `MediaDir`, `MediaListing` | directory browser, `src/media_dir.c` | resumed search equals the preorder listing; which files that has |
| `JsonRpc` | request/response correlation, `lib/jsonrpc/jsonrpc.c` | exactly when every response reaches its method |
| `Player` | state engine, `src/player.c` | settles within three turns; every source has one owner; which one is played; exactly when one is forgotten |
| `Crc32` | checksum, `clients/crc32.c` | is CRC-32, and detects every burst of 32 bits |
| `Bytes`, `Options` | shared definitions | |

`dafny verify dfyconfig.toml` checks everything.

## Where the code differs from what one expects

Each of these is stated by a contract or by a lemma with a concrete input.

- The scatter-gather ring deadlocks if the threshold leaves no slot free, or if the producer goes on after pushing an
  empty block; otherwise never, although the push that makes the ring RUNNING signals nobody (`DeadlockExactly`).
- The end of the stream is noticed only if the consumer stands right when the empty block is pushed (`ToldExactly`).
  It may sleep already (`EndNotSignalled`), or be awake with blocks to pop: the last one turns COMPLETE into FILLING
  (`EndOverwritten`). It may also be told too early, with a block still queued (`EndTooEarly`, `CompleteExactly`).
- In threaded mode the byte ring's `peer` moves the tail before it waits. That keeps the queue if and only if a block
  lies in front of the end or the queue wraps, which it does in RUNNING (`EnterPeer`). Entered in FILLING it can lose
  the place of the queue (`PeerTooEarly`, `TailMoveLoses`), and a stale byte is read (`BlockMisread`).
- When the producer ends, the byte ring gives nothing more unless it is nearly full: in RUNNING between one block and
  all but one stay in it, in FILLING no more than the threshold (`Peer`, `Starves`).
- A TXT string of more than 62 bytes is written but not read back: in an answer it loses the whole packet, in the
  authority section the rest and all additional records, in the additional section what follows (`ParsePkt`).
- The parser takes bit 7 out of the class, where the cache-flush bit is bit 15, and takes the flush bit for the
  unicast bit (`LostExactly`).
- Texts of a service are dropped up to the first of at most 63 bytes, and cut where their length byte wraps
  (`AddTexts`, `KeptExactly`).
- Rescaling adds half a step before it clips. If that add overflows an `int`, the loudest samples become the most
  negative value (`OverflowFlips`).
- When the encoder ends, the blocks packed so far are never sent: exactly the last group (`SentAllButLast`).
- The encoder's blocks have the size of the output without the header, but a full one does not fit: `_mux_run` then
  sends empty packets without end (`FullBlockStuck`, `ThroughExactly`).
- Without the reorder buffer, a packet overtaken by a later one is delivered late, nearly 2^16 packets count as missing,
  and the copy of a packet already delivered comes through (`OvertakenTwice`, `RisingExactly`).
- The sender passes over the number 65535, which the receiver counts as missing at each wrap (`EndToEndWrapping`).
- The receiver takes an ordered volume modulo 100, so that 100 becomes silence (`CommandReceived`, `VolumesEndToEnd`).
- Media ids of a resumed search are only right if the caller knows where the search stands; `media_play` moves the
  current id but not the search of `media_next` (`Seek`).
- JSON-RPC ids are random numbers seeded with the time in seconds; two requests within a second get the same id. Then
  a response may go to another method, whose answer entry comes first in the table (`SameSecondConfused`,
  `RoutedExactly`).
- A pause asked for in STATE_STOP leaves a STATE_PLAY without a source, which unpausing does not repair; and
  `player_play` in STATE_STOP leaves a next source there (`Settles`). If no source is found for the next media, the
  one fetched before is forgotten without being destroyed (`ForgottenExactly`, `SourceForgotten`).

## Model

| member | source | states |
|---|---|---|
| Crc32.Crc32b | clients/crc32.c:1-18 | the two loops compute the checksum of the bytes before the first NUL |
| Crc32.StepShifts | clients/crc32.c:11-14 | a clear low bit is shifted out; the low bit alone gives the polynomial |
| Crc32.Polynomial | clients/crc32.c:13 | the constant has exactly the terms of the CRC-32 polynomial |
| Crc32.TopBitLast | clients/crc32.c:9-14 | a byte takes eight steps, its low bits first |
| Crc32.BothComplements | clients/crc32.c:5-17 | the register starts with all ones and is complemented at the end |
| Crc32.BitStepInjective | clients/crc32.c:11-14 | one bit step never maps two registers to the same one |
| Crc32.BitStepsLinear | clients/crc32.c:11-14 | bit steps commute with exclusive or |
| Crc32.RunInjective | clients/crc32.c:6-17 | different registers stay different over any common suffix |
| Crc32.RunConcat | clients/crc32.c:6-17 | the checksum of a concatenation runs on from the register after the first part |
| Crc32.WindowInjective | clients/crc32.c:6-17 | windows of at most four bytes that meet again started from registers that differ in as many low bytes only, and are equal if the registers were |
| Crc32.BurstDetected | clients/crc32.c:6-17 | messages that differ only inside four consecutive bytes have different checksums |
| Crc32.BurstOfBitsDetected | clients/crc32.c:6-17 | so do messages that differ only inside 32 consecutive bits, which may reach into a fifth byte |
| JitterRing.Ring.constructor | src/jitter_ring.c:83-116 | a fresh ring is empty, with one spare block on each side |
| JitterRing.Ring.Pull | src/jitter_ring.c:158-184 | gives the write position exactly in FILLING or RUNNING and if a whole block fits, and that window holds no unread byte and lies in the buffer |
| JitterRing.Ring.Push | src/jitter_ring.c:186-250 | appends exactly the bytes written in the window, also when they overflow the end, and turns RUNNING exactly at the threshold |
| JitterRing.Ring.Place | src/jitter_ring.c:190-214 | the locked part of it: advance and copy the overflow back |
| JitterRing.Layout.RoomForBlock | src/jitter_ring.c:164-177 | when the level allows a block, the window behind the write position overlaps no unread byte |
| JitterRing.Layout.Untouched | src/jitter_ring.c:276-277 | what is written there changes no unread byte |
| JitterRing.Layout.AdvanceInside | src/jitter_ring.c:190-213 | advancing inside the ring appends the window to the queue |
| JitterRing.Layout.AdvanceAround | src/jitter_ring.c:199-213 | so does advancing past the end once the overflow is at the start |
| JitterRing.Layout.MoveTail | src/jitter_ring.c:302-315 | copying a short tail of a queue that wraps in front of the start keeps the queue, and makes the next block contiguous |
| JitterRing.Layout.MoveTailExact | src/jitter_ring.c:302-315 | the moved tail is where the queue begins if and only if the queue wraps, which a level of one block implies |
| JitterRing.Ring.EnterPeer | src/jitter_ring.c:302-320 | the move that stands before the wait, in any state: it keeps the queue if and only if a block lies in front of the end or the queue wraps |
| JitterRing.Layout.Drop | src/jitter_ring.c:339-370 | popping drops that many bytes from the head of the queue |
| JitterRing.CopyWithin | src/jitter_ring.c:209-313 | each copy inside the buffer is in bounds, does not overlap, and changes nothing else |
| JitterRing.Producer.Produce | src/jitter_ring.c:276-277 | the producer gives its chunks in order |
| JitterRing.Ring.Fill | src/jitter_ring.c:267-295 | takes exactly the chunks up to the threshold and appends them; fails exactly if the stream ends before it |
| JitterRing.Ring.MoveTail | src/jitter_ring.c:302-315 | in RUNNING it always is right: afterwards a block is contiguous at the read position and is the head of the unchanged queue |
| JitterRing.Ring.Peer | src/jitter_ring.c:252-337 | takes exactly these chunks; returns nothing exactly when the stream ends too early, and then keeps what is unread, a whole block at least in RUNNING; otherwise the next block, contiguous, as head of the queue |
| JitterRing.Ring.Pop | src/jitter_ring.c:339-370 | drops the popped bytes, and turns RUNNING into FILLING exactly when no more than a block is left; does nothing in FILLING or STOP |
| JitterRing.Turn | src/jitter_ring.c:252-370 | one peer and pop: nothing exactly when the stream ends too early; otherwise exactly the bytes wanted, up to a block; delivered, unread and still to come stay the stream |
| JitterRing.Consume | src/jitter_ring.c:252-370 | over any run, each turn is served until the stream ends too early; what is popped is exactly what the served turns wanted, and popped, unread and coming bytes are the produced stream in order |
| JitterRing.PeerTooEarly | src/jitter_ring.c:186-370 | a run of a threaded producer and consumer in which a `peer` entered in FILLING moves the tail wrongly |
| JitterRing.TailMoveLoses | src/jitter_ring.c:302-315 | the positions at which it fails |
| JitterRing.BlockMisread | src/jitter_ring.c:198-336 | the block read after the next push has a stale byte in it, and is the right one if and only if that happens to be equal |
| ScatterGather.Jitter.constructor | src/jitter_sg.c:100-148 | a fresh circle of free slots in STOP |
| ScatterGather.Jitter.Start | src/jitter_sg.c:168-176 | leaves STOP for FILLING, or for RUNNING without a threshold |
| ScatterGather.Jitter.Pull | src/jitter_sg.c:203-237 | takes the slot at the write end if it is free, and sleeps otherwise |
| ScatterGather.Jitter.Push | src/jitter_sg.c:253-281 | the locked sections: the block is queued, an empty block frees the slot and ends the stream, and a slot that was not pulled is refused |
| ScatterGather.Jitter.Peer | src/jitter_sg.c:413-428 | the locked section: takes the block at the read end if it is ready and the ring is not filling, and sleeps otherwise |
| ScatterGather.Jitter.Pop | src/jitter_sg.c:454-506 | frees the block, or with 0 puts it back |
| ScatterGather.Jitter.Length | src/jitter_sg.c:527-533 | in any reachable state, the whole length of the oldest queued block if the consumer holds it, and nothing otherwise |
| ScatterGather.FreshShape | src/jitter_sg.c:129-139 | the slots of a fresh ring have the expected states |
| ScatterGather.Ring.FreeAtIn | src/jitter_sg.c:226-233 | the slot at the write end is free exactly when the ring is neither full nor pulled |
| ScatterGather.Ring.ReadyAtOut | src/jitter_sg.c:414-427 | the slot at the read end is ready exactly when the ring is not empty and it is not being read |
| ScatterGather.Ring.PulledShape | src/jitter_sg.c:226-233 | pulling keeps the shape and the queue |
| ScatterGather.Ring.PushedShape | src/jitter_sg.c:273-281 | pushing keeps the shape and appends one block |
| ScatterGather.Ring.EndedShape | src/jitter_sg.c:253-266 | the empty block keeps the shape and the queue |
| ScatterGather.Ring.PeeredShape | src/jitter_sg.c:413-428 | peering keeps the shape and the queue |
| ScatterGather.Ring.PoppedShape | src/jitter_sg.c:492-505 | popping keeps the shape and drops the oldest block |
| ScatterGather.Ring.PutBackShape | src/jitter_sg.c:458-465 | putting back keeps the shape and the queue |
| ScatterMachine.ShapedStep | src/jitter_sg.c:203-506 | every step of either thread keeps the shape, and popped plus queued is pushed |
| ScatterMachine.BoundedQueue | src/jitter_sg.c:203-506 | in every reachable state: the threads never hold the same slot, popped is a prefix of pushed, and at most `count` blocks are between |
| ScatterMachine.FillingNeverOvershoots | src/jitter_sg.c:273-281 | while FILLING the level is at most the threshold, and equals it only until the producer's test |
| ScatterMachine.PhasedStep | src/jitter_sg.c:273-347 | every step keeps what the producer has seen between its locked update and its unlocked test |
| ScatterMachine.WatchedStep | src/jitter_sg.c:203-237 | every step keeps: whoever sleeps has a wake-up to come |
| ScatterMachine.NoDeadlock | src/jitter_sg.c:203-506 | with a threshold below the count, no interleaving puts both threads to sleep |
| ScatterMachine.SomeDeadlock | src/jitter_sg.c:203-506 | otherwise some interleaving does |
| ScatterMachine.DeadlockExactly | src/jitter_sg.c:203-506 | a deadlock is reachable if and only if the threshold is at least the count, or the producer goes on after an empty block |
| ScatterThreads.Threads.constructor | src/jitter_sg.c:100-148 | both threads at rest on a fresh ring |
| ScatterThreads.Threads.Pull | src/jitter_sg.c:203-237 | `pull` in place is the step of the machine |
| ScatterThreads.Threads.Push | src/jitter_sg.c:253-281 | so are the locked sections of `push` |
| ScatterThreads.Threads.AfterPush | src/jitter_sg.c:324-347 | so is each unlocked test that ends `push`, the write of RUNNING and the broadcast |
| ScatterThreads.Threads.BeforePeer | src/jitter_sg.c:359-412 | so are the first section of `peer` and its unlocked looks at the slot and at COMPLETE |
| ScatterThreads.Threads.Peer | src/jitter_sg.c:413-428 | so is the section that takes the block |
| ScatterThreads.Threads.Pop | src/jitter_sg.c:454-505 | so is `pop`, of the block and of 0 |
| ScatterThreads.Threads.AfterPop | src/jitter_sg.c:463-505 | so is the broadcast that ends it |
| ScatterEnd.FateStep | src/jitter_sg.c:203-506 | after the empty block, every step keeps a consumer that will be told on its way, and one that will not be off it |
| ScatterEnd.ReachesEnd | src/jitter_sg.c:355-506 | a consumer on its way is told once it has popped what is left |
| ScatterEnd.ToldExactly | src/jitter_sg.c:239-506 | at the empty block: the consumer can be told if and only if it has seen its slot free, or nothing is queued and it is not past that look, or there is no threshold; then from everywhere afterwards, otherwise from nowhere |
| ScatterEnd.CompleteExactly | src/jitter_sg.c:239-506 | a consumer that is told has got everything if and only if no block was queued after it had seen its slot free |
| ScatterEnd.EndNotSignalled | src/jitter_sg.c:239-348 | for every ring, a run in which the consumer sleeps and is never told |
| ScatterEnd.EndOverwritten | src/jitter_sg.c:492-503 | a run in which the consumer is awake, pops the last block, overwrites COMPLETE by that, and is never told |
| ScatterEnd.EndTooEarly | src/jitter_sg.c:363-411 | a run in which the consumer is told before a queued block, which is lost |
| ScatterEnd.LossExactly | src/jitter_sg.c:239-506 | a told consumer can miss a block if and only if the ring has two slots or more |
| NameCodec.ExpandsStable | lib/tinysvcmdns/mdns.c:963-1004 | what a name expands to survives the growth of the packet and the filling in of a data length |
| NameCodec.DictionaryStable | lib/tinysvcmdns/mdns.c:963-1004 | so does every entry of the dictionary |
| NameCodec.WriteLabel | lib/tinysvcmdns/mdns.c:982-996 | writing one label keeps the half-written name and adds its suffix as an entry |
| NameCodec.MatchIsComplete | lib/tinysvcmdns/mdns.c:972-980 | a suffix never matches an entry of its own name, so what a pointer refers to is complete |
| NameCodec.FinishName | lib/tinysvcmdns/mdns.c:1000-1003 | when the rest is written, the name and all its entries expand |
| NameCodec.Compression.Find | lib/tinysvcmdns/mdns.c:972-980 | the first entry that spells the name |
| NameCodec.Compression.EncodeName | lib/tinysvcmdns/mdns.c:963-1004 | writes exactly the compressed size; the name expands from its offset, its size is what a reader skips, the dictionary knows exactly its new suffixes, and no other byte changes |
| NameCodec.LabelLen | lib/tinysvcmdns/mdns.c:124-141 | the size of a name field without expanding it |
| NameCodec.Follow | lib/tinysvcmdns/mdns.c:262-273 | where the next label lies, behind a pointer or not, and that the rest of the name expands behind it |
| NameCodec.Measure | lib/tinysvcmdns/mdns.c:256-273 | the first pass computes the length of the expansion, and ends |
| NameCodec.Uncompress | lib/tinysvcmdns/mdns.c:253-297 | returns the name that was encoded at the offset, NUL-terminated, in an array of the right size |
| NameCodec.EncodeNames | lib/tinysvcmdns/mdns.c:963-1004 | all names of any sequence written with one dictionary take exactly their compressed size and expand from their offsets at the end |
| NameCodec.NameOnWire | lib/tinysvcmdns/mdns.c:963-1004 | the bytes of a name, as RFC 1035 has them: labels up to a zero byte, or up to two bytes with the high bits set that give the offset of the rest |
| NameCodec.CompressedExactly | lib/tinysvcmdns/mdns.c:970-1003 | the longest known suffix becomes two bytes; without one, a name takes its labels and a zero byte |
| NameCodec.LearnedExactly | lib/tinysvcmdns/mdns.c:982-991 | exactly the suffixes longer than any known one become known |
| PacketCodec.EncodeTxt | lib/tinysvcmdns/mdns.c:1056-1063 | the strings of a TXT record lie in the packet, one behind the other |
| PacketCodec.EncodeSrv | lib/tinysvcmdns/mdns.c:1065-1074 | priority, weight, port and a target that expands, in exactly the compressed size |
| PacketCodec.EncodeData | lib/tinysvcmdns/mdns.c:1038-1091 | the data of each record type in exactly its compressed size, decodable behind the open data length |
| PacketCodec.EncodeFields | lib/tinysvcmdns/mdns.c:1018-1033 | name, type, class with flush bit and TTL; what their bytes are is in RecordOnWire |
| PacketCodec.RecordClosed | lib/tinysvcmdns/mdns.c:1093-1097 | filling in the data length completes the record and harms nothing written before |
| PacketCodec.EncodeRr | lib/tinysvcmdns/mdns.c:1008-1100 | the packet carries the record in exactly its compressed size, names stay decodable, and no other byte changes |
| PacketCodec.WireAddress | lib/tinysvcmdns/mdns.c:1039-1042 | an address goes out with the byte first that is lowest in memory |
| PacketCodec.TxtOnWire | lib/tinysvcmdns/mdns.c:1056-1063 | each text stands behind the one before it and its length byte |
| PacketCodec.DataOnWire | lib/tinysvcmdns/mdns.c:1038-1091 | the data of each record type, byte by byte, numbers with the high byte first |
| PacketCodec.RecordOnWire | lib/tinysvcmdns/mdns.c:626-1097 | name, the number of the type, class with the flush bit on top, TTL with the highest byte first, data length and data |
| PacketCodec.CarriesStable | lib/tinysvcmdns/mdns.c:1008-1100 | a record in the packet survives what is appended |
| PacketCodec.EncodeSection | lib/tinysvcmdns/mdns.c:1144-1157 | the records of a section, one behind the other; it fails exactly if their compressed size reaches the packet length |
| PacketCodec.EncodeHeader | lib/tinysvcmdns/mdns.c:1117-1124 | id, flags and the counts of the sections |
| PacketCodec.EncodePkt | lib/tinysvcmdns/mdns.c:1104-1168 | a packet that carries all records of the three sections in exactly their compressed size, byte by byte as PacketOnWire has it; refused if and only if that reaches the packet length |
| PacketCodec.PacketOnWire | lib/tinysvcmdns/mdns.c:626-1168 | the packet is the header with its six numbers, the high byte first, and the records behind it without a gap |
| PacketCodec.CopyLabel | lib/tinysvcmdns/mdns.c:236-249 | a text, unless it leaves the packet or is longer than 62 bytes |
| PacketCodec.ParseTxt | lib/tinysvcmdns/mdns.c:817-844 | all strings, or failure at the first that cannot be copied |
| PacketCodec.ParseSrv | lib/tinysvcmdns/mdns.c:846-863 | the SRV data that was encoded |
| PacketCodec.ParseData | lib/tinysvcmdns/mdns.c:784-872 | the data that was encoded, for each type |
| PacketCodec.ParseRr | lib/tinysvcmdns/mdns.c:732-887 | the record that was encoded and exactly the bytes it takes, or failure if and only if a TXT string is too long |
| PacketCodec.ParseSection | lib/tinysvcmdns/mdns.c:924-956 | the records up to the first that cannot be parsed |
| PacketCodec.GoodExact | lib/tinysvcmdns/mdns.c:924-956 | the first record that cannot be parsed |
| PacketCodec.AfterAuthorities | lib/tinysvcmdns/mdns.c:936-956 | a bad authority record also loses every additional record |
| PacketCodec.ParsePkt | lib/tinysvcmdns/mdns.c:890-959 | nothing if and only if an answer cannot be parsed; otherwise exactly the records that survive, in order |
| PacketCodec.RoundTrip | lib/tinysvcmdns/mdns.c:890-1168 | encoding then parsing: a packet comes back if and only if its compressed size is below the buffer and no answer has a TXT string of more than 62 bytes; it has exactly the records before the first such one, and of none after a bad authority record, in order |
| PacketCodec.LostExactly | lib/tinysvcmdns/mdns.c:732-887 | exactly when the class, the unicast bit and the NSEC bitmap survive; all else does |
| PacketCodec.SwapTwice | lib/tinysvcmdns/mdns.c:1039-1042 | swapping the bytes of an address twice, once on writing and once on reading it, gives it back |
| DottedName.CreateNlabel | lib/tinysvcmdns/mdns.c:201-232 | the label form of a dotted name of labels of 1 to 63 bytes, written inside its buffer |
| DottedName.FindDot | lib/tinysvcmdns/mdns.c:215-228 | the first dot, or none |
| DottedName.WireIsName | lib/tinysvcmdns/mdns.c:201-232 | what it builds is a name that the compression encodes |
| DottedName.CopyParts | lib/tinysvcmdns/mdns.c:94-109 | the loop copies as many whole parts, each with a dot, as the 256 bytes hold |
| DottedName.NlabelToStr | lib/tinysvcmdns/mdns.c:84-119 | the whole parts that fit into 256 bytes, without a final dot |
| DottedName.FitsExactly | lib/tinysvcmdns/mdns.c:84-119 | all parts fit if and only if the dotted name has at most 255 characters |
| DottedName.RoundTrip | lib/tinysvcmdns/mdns.c:84-232 | both ways, a name of at most 255 characters comes back, and a longer one comes back cut |
| RecordStore.ListAppend | lib/tinysvcmdns/mdns.c:455-476 | appends at the end unless the record is there already |
| RecordStore.ListRemove | lib/tinysvcmdns/mdns.c:410-427 | removes the first occurrence |
| RecordStore.RemovedContents | lib/tinysvcmdns/mdns.c:410-427 | of distinct records exactly that one goes |
| RecordStore.GroupFind | lib/tinysvcmdns/mdns.c:580-586 | the group of a name |
| RecordStore.GroupAdd | lib/tinysvcmdns/mdns.c:557-577 | the record joins the group of its name, or a new one |
| RecordStore.AddedFiled | lib/tinysvcmdns/mdns.c:557-577 | adding keeps every record in the single group of its name and adds just that record |
| RecordStore.EntryRemove | lib/tinysvcmdns/mdns.c:379-408 | takes out a PTR record that refers to the target, or there is none |
| RecordStore.DroppedFiled | lib/tinysvcmdns/mdns.c:379-408 | taking out a record keeps the groups right and removes just that record |
| RecordStore.GroupClean | lib/tinysvcmdns/mdns.c:429-449 | takes out the empty groups |
| RecordStore.CleanedFiled | lib/tinysvcmdns/mdns.c:429-449 | that changes no content |
| ServiceStore.Server.constructor | lib/tinysvcmdns/mdnsd.c:1000-1033 | an empty database is consistent |
| ServiceStore.Server.SetHostname | lib/tinysvcmdns/mdnsd.c:664-703 | adds exactly the address and the NSEC record of the host, with its type bit |
| ServiceStore.Server.MakeService | lib/tinysvcmdns/mdnsd.c:887-920 | the TXT, SRV, PTR and service-PTR records, referring to each other, with port, target, texts and lifetimes of 4500 or 120 seconds |
| ServiceStore.AddTexts | lib/tinysvcmdns/mdns.c:533-555 | the loop that adds the texts keeps exactly those from the first of at most 63 bytes on, each as far as its length byte goes |
| ServiceStore.KeptExactly | lib/tinysvcmdns/mdns.c:184-197 | all texts are kept whole if and only if the first has at most 63 bytes and none more than 255 |
| ServiceStore.Server.Register | lib/tinysvcmdns/mdnsd.c:874-945 | adds exactly the records of the new service with its port, texts and lifetimes, announces its PTR, and keeps the database consistent |
| ServiceStore.RegisterKeeps | lib/tinysvcmdns/mdnsd.c:874-945 | services stay disjoint and every PTR record belongs to one |
| ServiceStore.PointerOwner | lib/tinysvcmdns/mdnsd.c:947-992 | only the service's own PTR records refer to its records |
| ServiceStore.Server.TakePointer | lib/tinysvcmdns/mdnsd.c:964-974 | finds exactly that PTR record |
| ServiceStore.Server.DropRecord | lib/tinysvcmdns/mdnsd.c:947-992 | one record leaves the group of its name |
| ServiceStore.Server.RemoveEntry | lib/tinysvcmdns/mdnsd.c:955-982 | one turn of the removal removes that record and the PTR record that refers to it |
| ServiceStore.Server.Remove | lib/tinysvcmdns/mdnsd.c:947-992 | removes exactly the records of that service, queues its PTR once for leave, and leaves no empty group |
| ServiceStore.RemoveKeeps | lib/tinysvcmdns/mdnsd.c:947-992 | the others keep their records and no PTR record dangles |
| ServiceStore.TargetStored | lib/tinysvcmdns/mdnsd.c:874-992 | in a consistent database the target of every PTR record is stored |
| Responder.Populate | lib/tinysvcmdns/mdnsd.c:191-217 | appends exactly the records that answer, once each, and counts the new ones |
| Responder.Reply.AddRelatedTo | lib/tinysvcmdns/mdnsd.c:222-251 | adds exactly the records related to one record; which those are is in RelatedExactly |
| Responder.Reply.AddRelatedToAnswers | lib/tinysvcmdns/mdnsd.c:220-253 | one step from the answers |
| Responder.NextStep | lib/tinysvcmdns/mdnsd.c:220-253 | each turn of the worklist keeps it reachable and distinct, and either closes one more record or grows towards the finite database |
| Responder.Reply.AddRelatedToAdditionals | lib/tinysvcmdns/mdnsd.c:220-253 | the list that grows while it is walked ends as exactly the records reachable in one or more steps, without duplicates, and its counter is its length |
| Responder.ClosedHoldsReachable | lib/tinysvcmdns/mdnsd.c:447-450 | a closed list holds everything reachable |
| Responder.Reply.AnswerQuestions | lib/tinysvcmdns/mdnsd.c:397-414 | the answers are exactly the records asked for, and the unicast bit is that of any question |
| Responder.Match | lib/tinysvcmdns/mdns.c:599-612 | the first record in the list that is the same |
| Responder.UnknownContents | lib/tinysvcmdns/mdnsd.c:416-443 | exactly the answers that the asker does not have with half of their lifetime left remain |
| Responder.Reply.SuppressKnown | lib/tinysvcmdns/mdnsd.c:416-443 | the loop that takes out the known ones while it walks the list |
| Responder.Reply.ProcessQuery | lib/tinysvcmdns/mdnsd.c:392-455 | answers are what is asked and not known, additional records what is reachable from them, and the counters are right; in terms of what is stored, in Browse |
| Browsing.AnswersExactly | lib/tinysvcmdns/mdnsd.c:189-217 | exactly the stored records of a name and type answer a question; any type means all but NSEC |
| Browsing.RelatedExactly | lib/tinysvcmdns/mdnsd.c:220-253 | a PTR record brings in what is stored under the name it refers to, a SRV record what is stored under its target and its TXT record, an address its NSEC record |
| Browsing.ReachedComplete | lib/tinysvcmdns/mdnsd.c:446-450 | the additional records hold exactly what an answer or another additional record brings in |
| Browsing.SameExactly | lib/tinysvcmdns/mdns.c:599-612 | name and type, and for a PTR record the name it refers to, make records the same |
| Browsing.KnownExactly | lib/tinysvcmdns/mdnsd.c:416-443 | an answer is left out if and only if the first such record of the asker has half of its lifetime left |
| Browsing.PointerBrings | lib/tinysvcmdns/mdnsd.c:226-231 | a stored PTR record brings in the stored record it refers to |
| Browsing.PointerTellsAll | lib/tinysvcmdns/mdnsd.c:220-450 | with the PTR record of a live service, or the one that lists its type, come its SRV and TXT records, all that is stored about its target, and the NSEC record of each address |
| Browsing.HostTold | lib/tinysvcmdns/mdnsd.c:664-703 | the host's own address and the NSEC record with its bit come with a service that runs there |
| Browsing.Browse | lib/tinysvcmdns/mdnsd.c:389-455 | a query to a consistent server: the answers are exactly the stored records asked for that the asker lacks, and every live service among them is told completely |
| Browsing.BrowseType | lib/tinysvcmdns/mdnsd.c:389-455 | browsing for a type answers exactly its PTR records, and tells all about each live service of the type, with the host's address |
| Browsing.WellKnownName | lib/tinysvcmdns/mdnsd.c:65-66 | the name that lists the types is that of RFC 6763 |
| FilterPcm.EncodeConcat | src/filter_pcm.c:176-265 | encoding a stream in two parts with the state carried over is encoding the whole |
| FilterPcm.Filter.Change | src/filter_pcm.c:176-187 | the loop over the chain computes that passage |
| FilterPcm.Filter.SampledChange | src/filter_pcm.c:176-206 | one sample through the chain becomes its bytes, and no other byte of the block changes |
| FilterPcm.Audio.Advance | src/filter_pcm.c:254-263 | drops the first frames of planar or interleaved audio |
| FilterPcm.Filter.RunFrame | src/filter_pcm.c:233-248 | one frame, channel by channel |
| FilterPcm.Filter.Run | src/filter_pcm.c:222-265 | encodes as many whole frames as fit, and leaves the rest of the audio and of the block |
| FilterPcm.Output.Prepare | src/filter_pcm.c:385-395 | pulls a block only if none is pending; what the output has capacity for stays the same |
| FilterPcm.Output.FillBlock | src/filter_pcm.c:397-398 | appends frames at the end of the pending block, and uses up just their capacity |
| FilterPcm.Output.PushFull | src/filter_pcm.c:400-419 | afterwards the pending block is not full; pushed plus pending bytes and the capacity are unchanged |
| FilterPcm.Output.FillOutput | src/filter_pcm.c:366-427 | takes the frames that fit, fails exactly without capacity; pushed plus pending bytes grow by exactly their encoding, and the capacity falls by just them |
| FilterPcm.Output.Decode | src/decoder_flac.c:180-191 | the decoder's loop ends, and takes exactly as many frames as the output has capacity for |
| FilterPcm.DecodeStream | src/filter_pcm.c:222-427 | however a stream is cut into decoder frames, pushed blocks plus the pending part are the encoding of the whole stream through the stateful chain, cut exactly where the capacity of the output ends |
| Channels.EncodedAt | src/filter_pcm.c:176-248 | the bytes of channel c in frame i stand at its place, and are its sample as the stages leave it after all samples before |
| Channels.ThroughConcat | src/filter_pcm.c:179-184 | stages work in the order of the chain |
| Channels.ThroughOne | src/filter_pcm.c:179-184 | each is called once for a sample and keeps its state for the next |
| Channels.FrameOriginal | src/filter_pcm.c:208-220 | planar audio has the sample in the array of its channel, interleaved audio behind those of the channels before it |
| Channels.FramePlays | src/filter_pcm.c:176-248 | without stages, the bytes of a channel read back as the sample of that channel |
| Channels.StreamPlays | src/filter_pcm.c:176-265 | so they do in a whole stream of chunks |
| Channels.Play | src/filter_pcm.c:176-427 | so they do in what a decoder leaves in the output, for as many frames as that takes |
| Channels.InterleavedSame | src/filter_pcm.c:208-220 | planar audio and its interleaving give the same frames |
| Channels.InterleavedStream | src/filter_pcm.c:208-265 | so a stream gives the same, whichever of its chunks are interleaved |
| Rescale.Context.Callback | src/filter_rescale.c:84-103 | rescales within the output's range, as RescaleCb with the shift of a C int |
| Rescale.Fits | src/filter_rescale.c:84-103 | the result fits into `outbits` signed bits for every sample |
| Rescale.Nearest | src/filter_rescale.c:84-103 | a sample that is not clipped is rounded within half a step |
| Rescale.Monotone | src/filter_rescale.c:84-103 | larger samples give larger results as long as the rounding add does not overflow |
| Rescale.OverflowFlips | src/filter_rescale.c:84-103 | a positive sample comes out negative if and only if that add overflows, and then as the minimum |
| Rescale.ReadBack | src/filter_pcm.c:189-205 | the bytes of a sample decode to it, shifted by the bytes it lacks, if and only if it fits |
| Rescale.RescaledReadBack | src/filter_pcm.c:189-205 | rescaled to the width of its format and laid out in it, every wide sample reads back as rescaled; a narrow one reads back moved up if and only if it fits |
| Rescale.DecoderSample | src/filter_rescale.c:44-103 | a decoder that sets up the rescaling for any little-endian output format leaves such bytes in the output |
| RtpDemux.Demux.GetOut | src/demux_rtp.c:251-300 | finds the substream by either source id or payload type, or opens a session |
| RtpDemux.Demux.Count | src/demux_rtp.c:424-461 | the loss accounting modulo 2^16 |
| RtpDemux.Demux.Deliver | src/demux_rtp.c:472-489 | the payload in blocks of the decoder's jitter |
| RtpDemux.Demux.ParseHeader | src/demux_rtp.c:302-496 | one packet: refused source, control, duplicate, or delivered; each case has its own law in RtpDelivery |
| RtpDelivery.ChunksWhole | src/demux_rtp.c:472-489 | the blocks are the whole payload, and none is too large |
| RtpDelivery.CountedStep | src/demux_rtp.c:424-461 | delivered plus missing stays the distance covered |
| RtpDelivery.GotOutFresh | src/demux_rtp.c:251-300 | either copy of the first packet opens the same session |
| RtpDelivery.ReceiveStep | src/demux_rtp.c:302-496 | a packet is delivered exactly when its number is new, and the receiver keeps following the stream |
| RtpDelivery.FirstCopiesComplete | src/demux_rtp.c:388-389 | every sequence number that arrives has a first copy |
| RtpDelivery.FirstCopiesIncrease | src/demux_rtp.c:388-389 | the first copies arrived and have increasing numbers |
| RtpDelivery.RunDelivers | src/demux_rtp.c:302-496 | over a run the decoder gets the first copies, whole and in order |
| RtpDelivery.ExactlyOnce | src/demux_rtp.c:302-496 | a number is delivered if and only if a copy arrived, once and in increasing order, and exactly the numbers left out between the first and the last delivered count as missing |
| RtpDelivery.ReceivedAnyOrder | src/demux_rtp.c:302-496 | in any order of arrival: an original is delivered whatever its number, a second copy exactly if its number is above the last one, and the numbers passed over count as missing modulo 2^16 |
| RtpDelivery.RisingExactly | src/demux_rtp.c:302-496 | in any order of arrival, the numbers are delivered in increasing order, each at most once, if and only if every original is newer than all packets before it |
| RtpDelivery.OvertakenTwice | src/demux_rtp.c:388-461 | a run with an overtaken original: it is delivered late, 65534 others count as missing, and a copy of what was delivered comes through again |
| RtpDelivery.ForeignRefused | src/demux_rtp.c:345-372 | while a session is open, a packet of another source, data or command, changes nothing but the list of refused sources, whatever is in it |
| RtpDelivery.PhaseStep | src/demux_rtp.c:302-496 | the session opens with the first data packet and closes with the stop command |
| RtpDelivery.OwnReceived | src/demux_rtp.c:345-496 | a packet of the stream neither reads nor changes the refused sources |
| RtpDelivery.MixedFrom | src/demux_rtp.c:302-496 | packets of other sources mixed in while the session is open leave the receiver as it would be without them, but for exactly those sources refused |
| RtpDelivery.ExactlyOnceAmong | src/demux_rtp.c:302-496 | so the exactly-once theorem holds among any such packets |
| RtpDelivery.OwnExactly | src/demux_rtp.c:345 | the packets of the two source ids are the stream's own |
| RtpDelivery.CommandReceived | src/demux_rtp.c:374-387 | a volume is passed on modulo 100; a stop ends the session |
| RtpDelivery.VolumesArrive | src/demux_rtp.c:374-387 | over a run every volume arrives, in order |
| RtpDelivery.NotTaken | src/demux_rtp.c:388-424 | without a decoder or a known payload type nothing is delivered or counted |
| RtpDelivery.SwapReverses | src/demux_rtp.c:251-300 | the ids of a substream have their four bytes in the opposite order |
| RtpMux.Mux.constructor | src/mux_rtp.c:127-183 | a sender with its first number, the marker and the initial volume pending |
| RtpMux.Mux.Order | src/mux_rtp.c:91-125 | a stop or a new volume replaces the pending command |
| RtpMux.Mux.Pack | src/mux_rtp.c:262-274 | takes blocks while they fit, whole and in order |
| RtpMux.Mux.Run | src/mux_rtp.c:208-310 | one call sends the packet, its copy and the pending control packet, or at the end of the input nothing |
| RtpMux.Mux.Thread | src/mux_rtp.c:312-345 | repeats it until the encoder ends, for any number of turns and any commands between them |
| RtpMux.PackedExact | src/mux_rtp.c:262-274 | the packed blocks fit, and the next one does not |
| RtpMux.EmitFits | src/mux_rtp.c:262-274 | every data packet is shorter than the output block |
| RtpMux.EmitOpens | src/mux_rtp.c:219-310 | the packets of one call are in order and add one payload, doubled or not, control packet or not |
| RtpMux.EmittedCarries | src/mux_rtp.c:208-310 | what any number of calls sends carries exactly the blocks sent, in order, whatever is ordered between |
| RtpMux.EmittedConsecutive | src/mux_rtp.c:224-230 | the packets carry consecutive numbers |
| RtpMux.NumbersWrap | src/mux_rtp.c:224-230 | the numbers run from 0 to 65534 and again, with the marker at 0 |
| RtpMux.CommandsSent | src/mux_rtp.c:288-307 | exactly the pending command and those ordered are sent, once each and in order |
| RtpMux.CommandEmitted | src/mux_rtp.c:288-307 | the pending command goes out at the end of a call, with the number of the next data packet |
| RtpMux.CopiesCarry | src/mux_rtp.c:276-286 | either copy of a packet carries the payload, type and marker of the first one sent |
| RtpMux.VolumesEndToEnd | src/mux_rtp.c:288-307 | without loss the receiver is told exactly the volumes ordered, in order |
| RtpMux.EndToEnd | src/mux_rtp.c:208-310 | without loss, after any number of calls and for blocks of any size, the decoder has got exactly the blocks sent, in order, once, and no packet counts as missing |
| RtpMux.CallReceived | src/mux_rtp.c:276-307 | of what one call sends the receiver takes the first copy, with the numbers passed over counted, and not the second |
| RtpMux.EndToEndWrapping | src/mux_rtp.c:208-310 | however often the numbers wrap, without loss the decoder gets exactly the blocks sent, in order, once; each wrap counts one packet as missing |
| RtpMux.SentAllButLast | src/mux_rtp.c:262-274 | if every block fits into a packet of its own, exactly the last packed group is never sent |
| RtpMux.Stuck | src/mux_rtp.c:262-274 | a block that does not fit stays, and an empty packet is sent for it |
| RtpMux.SentUpTo | src/mux_rtp.c:262-274 | exactly the blocks before the first that does not fit are sent |
| RtpMux.ThroughExactly | src/mux_rtp.c:208-345 | the sender gets through its input if and only if every block fits into a packet of its own |
| RtpMux.FullBlockStuck | src/mux_rtp.c:262-382 | a full block of the size that the encoder's jitter has does not fit |
| RtpMux.SurvivorsInOrder | src/mux_rtp.c:276-286 | any part of what was sent is in order |
| RtpMux.LossyExactlyOnce | src/mux_rtp.c:276-286 | whatever the channel loses of what any number of calls sent, each number of which a copy survives is delivered exactly once, with the payload first sent with it |
| MediaDir.Search.constructor | src/media_dir.c:184-199 | a search starts without frames |
| MediaDir.Search.Callback | src/media_dir.c:161-175 | stops at the id asked for, and reports it; -1 reports all |
| MediaDir.Search.Visit | src/media_dir.c:216-311 | one entry: hidden, file or directory, either hit or all of its files counted |
| MediaDir.Search.Descend | src/media_dir.c:237-285 | a directory is pushed and searched; it stays on the stack exactly after a hit |
| MediaDir.Search.Scan | src/media_dir.c:214-317 | the loop over a directory goes over its files in preorder, and pops the frame at the end |
| MediaDir.Search.Find | src/media_dir.c:184-321 | fresh or resumed, stops exactly at the file asked for with the rest of the listing left in the stack, or counts all files and empties the stack |
| MediaDir.LeftSplit | src/media_dir.c:200-212 | what is left below and above a level of the stack make up all that is left |
| MediaDir.Search.Seek | src/media_dir.c:331-406 | from a hit at n, the search for from + k reports the (n + k)-th file of the listing, or nothing, whatever the caller's counter |
| MediaDir.Search.PlayAll | src/media_dir.c:364-390 | asking for the next one until there is none reports the preorder listing, each file once |
| MediaDir.MediaFind | src/media_dir.c:331-349 | a fresh search finds the n-th file of the preorder listing if there is one; -1 lists all |
| MediaListing.ListingExactly | src/media_dir.c:216-311 | the listing has one file for each trail of at most 12 entries through readable directories without a hidden name, in the order of the trails |
| JsonRpc.Table.Link | lib/jsonrpc/jsonrpc.c:421-431 | the id waits in every answer entry of the method |
| JsonRpc.Table.JRequest | lib/jsonrpc/jsonrpc.c:386-451 | the first request or notification of that name; only a request waits |
| JsonRpc.Table.Unlink | lib/jsonrpc/jsonrpc.c:259-276 | takes out the first pending entry with the id |
| JsonRpc.Table.HandleSingle | lib/jsonrpc/jsonrpc.c:236-305 | the entry that gets the message, what is unlinked, and which answer callback is called |
| JsonRpc.OutcomeExactly | lib/jsonrpc/jsonrpc.c:236-305 | the first entry is called that is a request or notification of the name, by the id, or an answer that waits for the id; unless the message is an error, nobody gets it or its parameters do not suit |
| JsonRpc.WaitsExact | lib/jsonrpc/jsonrpc.c:259-276 | exactly the answer entries of the methods that asked with an id wait for it |
| JsonRpc.SentStep | lib/jsonrpc/jsonrpc.c:386-451 | sending keeps the pending lists equal to the open requests |
| JsonRpc.ReceivedStep | lib/jsonrpc/jsonrpc.c:253-305 | so does a response that is routed right, and the reply is the one that is due |
| JsonRpc.RoutedStep | lib/jsonrpc/jsonrpc.c:253-276 | a response is routed right if and only if it is not shadowed; otherwise an entry of another method takes it |
| JsonRpc.RoutedExactly | lib/jsonrpc/jsonrpc.c:253-434 | for every table and run: all responses reach their own methods, and repeated ones none, if and only if never an answer entry earlier in the table waited for the same id |
| JsonRpc.Correlated | lib/jsonrpc/jsonrpc.c:253-434 | hence with ids distinct between methods each response reaches the callback of the method that asked, and every reply is the one that is due |
| JsonRpc.SameSecondConfused | lib/jsonrpc/jsonrpc.c:414-431 | for every table and either order of sending: of two methods that ask with one id, a first response is routed right if and only if it answers the one that is first in the table |
| Player.Context.constructor | src/player.c:76-87 | stopped, with no source |
| Player.Context.State | src/player.c:230-248 | sets the state and returns the one before |
| Player.Context.PlayCallback | src/player.c:335-373 | the new source becomes the next one, the one before is destroyed, or forgotten if none was built |
| Player.Context.PlayMedia | src/player.c:375-385 | calls it only with a media |
| Player.Context.ChangeMedia | src/player.c:89-139 | fetches a next source unless stopped |
| Player.Context.StateEngine | src/player.c:399-496 | the fields and the state asked for after each state; which source that plays is in the next rows |
| Player.ChangePlaysNext | src/player.c:466-492 | skipping plays exactly the source that waits and destroys the former one, or stops if none waits |
| Player.StartPlaysWaiting | src/player.c:428-492 | a start plays exactly the source that waits after the first fetch, or stops again |
| Player.StopPlaysNothing | src/player.c:399-427 | a stop destroys what is played and what waits |
| Player.PlayedGoesOn | src/player.c:335-465 | through a pause and while others are fetched the same source is played; a new one takes the place of the one that waits |
| Player.NeverOlder | src/player.c:335-550 | over all runs the source played is never older than one played before |
| Player.TurnsFall | src/player.c:498-550 | each turn brings the loop one closer to its wait, and it is never more than three away |
| Player.Context.Run | src/player.c:498-550 | from one wait to the next, in exactly the number of turns computed |
| Player.SettledCalm | src/player.c:399-550 | an unhandled state ends in STOP with both fields empty, or in PLAY with a source unless paused |
| Player.AfterCalm | src/player.c:399-550 | from each resting state, each request leads to a resting state, with exact conditions for the fields |
| Player.Settles | src/player.c:399-550 | over all runs: resting in STOP or PLAY; no source in PLAY if and only if it was entered by a pause in STOP and not left; a next source in STOP if and only if one was fetched there |
| Player.EngineAccounted | src/player.c:399-496 | each turn keeps every source in exactly one place |
| Player.OfferedAccounted | src/player.c:335-373 | so does a new source |
| Player.Owned | src/player.c:335-550 | over all runs every source built was destroyed once, or is in one field, or is forgotten |
| Player.AccountedMeans | src/player.c:335-550 | hence none is destroyed twice, and the two fields hold different, living sources |
| Player.OfferedForgets | src/player.c:335-373 | a failed fetch forgets the next source, if there is one, and nothing else does |
| Player.AfterForgets | src/player.c:335-550 | which request forgets a source, as a guard on what waits and what the media has |
| Player.ForgottenExactly | src/player.c:335-550 | over all runs, some source is forgotten if and only if some request met that guard |
| Player.SourceForgotten | src/player.c:335-373 | a run that forgets one |

## Left out

- Sockets, sound devices, curl, SQLite, inotify, scheduling, codec and JSON libraries: foreign calls, given as parameters where a result matters.
- Byte ring: the waits of two threads, `consume` mode, heartbeat, flush, reset and pause; but for the move at the entry of `peer`, the producer is in the thread of the consumer and gives chunks of 1 to `size` bytes until it ends.
- JitterRing.Ring.Pull: the wait of a threaded producer.
- JitterRing.Ring.Push: a length of 0, which a producer in the consumer's thread never pushes.
- JitterRing.Ring.Place: a length of 0, as in Push.
- JitterRing.Ring.Pop: for `len` up to the readable block only; the source does not check it.
- Scatter-gather ring: several channels, heartbeat, `consume` and `produce` callbacks, flush, reset and pause; pause can re-enter FILLING at the threshold.
- ScatterEnd.ToldExactly: for a producer that stops after its empty block; whether a thread gets its turn is not modelled.
- mDNS: announcements, questions, malformed packets, packets of 16384 bytes and more, searches for other hosts' services, and the memory behind records.
- NameCodec.Compression.EncodeName: assumes room for the compressed name; the source does not check it either.
- NameCodec.Follow: on encoded names; the source does not check that the bytes are one.
- NameCodec.Measure: on encoded names, as Follow.
- NameCodec.Uncompress: on encoded names, as Follow.
- PacketCodec.EncodeTxt: assumes room for the strings, which the source does not check.
- PacketCodec.EncodeFields: assumes room for the fields, which the source does not check.
- PacketCodec.EncodePkt: assumes room for the compressed packet in the buffer, as RoundTrip.
- PacketCodec.CopyLabel: an offset at the end of the packet must lie in the buffer, whose byte the source reads there.
- NameCodec.EncodeNames: assumes room for the compressed names, below 16384 bytes.
- PacketCodec.EncodeSrv: assumes room for the compressed data, which the source does not check.
- PacketCodec.EncodeData: assumes room for the compressed data, which the source does not check.
- PacketCodec.EncodeRr: assumes room for the compressed record, which the source checks only afterwards.
- PacketCodec.EncodeSection: assumes room for the compressed records in the buffer, not in the packet length.
- PacketCodec.RoundTrip: assumes room for the compressed packet in the buffer, which the source checks only record by record.
- PacketCodec.ParseTxt: on data that the encoder wrote.
- PacketCodec.ParseSrv: on data that the encoder wrote.
- PacketCodec.ParseData: on data that the encoder wrote.
- PacketCodec.ParseRr: on a record that the encoder wrote.
- PacketCodec.ParseSection: on a section that the encoder wrote.
- PacketCodec.ParsePkt: on packets that EncodePkt wrote; the rest of its input is malformed or has questions.
- DottedName.CreateNlabel: for labels of 1 to 63 bytes and no dot at the end.
- DottedName.CopyParts: not for the root name, for which line 114 of mdns.c reads in front of its buffer.
- DottedName.NlabelToStr: not for the root name, as CopyParts.
- ServiceStore.Server.Register: after SetHostname or with a host name, as the source asserts.
- FilterPcm.Filter.RunFrame: not for a block that ends inside a frame.
- FilterPcm.Filter.Run: block sizes that are a multiple of the frame size.
- PCM filter: more output than input channels in interleaved mode, the boost and statistics stages; a stage is any function with a state.
- Rescale.Monotone: not beyond the overflow, where OverflowFlips shows that it fails.
- Rescale.ReadBack: for the little-endian formats, and up to 30 input bits, where the shifts are defined.
- RTP: the reorder buffer, PCM extension headers, heartbeat timestamps, several streams, sequence numbers that wrap while packets are lost, a first session id given in the URL, and a decoder jitter that fails to give a block.
- MediaDir: links other than to what they lead to, a root directory that cannot be read, the running estimate `count`, and the end-of-list, loop and random choices of `media_next`.
- JsonRpc: the checks of a message and of its parameters are given as flags; error objects and entries without a callback are not modelled; a client receives no requests, as jsonrpc.h demands.
- Player: requests that arrive while the engine runs, the pausing and flushing of the outputs, listeners, and the end of the thread beyond STATE_ERROR.
