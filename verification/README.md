# Verification of the companion-robot protocol stack and services

A Dafny model of the parts of the system whose correctness is hardest to see from the code, and proofs of
what those parts promise. `dafny verify dfyconfig.toml` checks everything.

## What is modelled

**The BCP protocol stack.** `Crc` has the bit-serial division, the generated table and the loop over it; `FirmwareCrc`
has the literal table of the firmware; `LongDivision` has schoolbook division of polynomials over GF(2) and shows that
all of these compute it. `Commands` has all 37 command variants with their sizes, identifiers and payload layouts in
both directions; `WireFormat` holds them against a table of fields and says what becomes of payloads that nobody
wrote. `Encoder` and `BcpCodec` write frames into a byte array at a moving position and parse arbitrary bytes with a
moving position; both are proved equal to the functions of `Codec`, about which round trip, canonical form and stream
splitting are proved; `FrameChecks` says which bytes are on the wire and which buffers are refused with which error.
`Corruption` says which damage the checksum catches, and `Parity` that it catches every odd number of flipped bits.
`Builder` and `FrameBuilder` are the priority packer: insertion sort by adjacent swaps, packing that skips what does
not fit, draining; `PackingOrder` says when packing and draining follow the priorities. `Sorting` is stable sorting in
general. The stack is also proved as a whole: drained frames encode, and the bytes split back into the drained
commands.

**The gateway.** `ConnPool` is the connection pool with its three maps and the wrapping id allocator. `Gateway` runs
it under any interleaving of connection handlers, each of which may hold a short id that has been superseded;
`GatewayBound` shows for every connection limit that the bound on registrations is tight.

**The rest.** `Ble` is the phone's fragmentation and reassembly, composed with the codec. `Nms` is non-maximum
suppression, and `BoxOverlap` says what its measure measures. `Scheduler` selects robots and runs a dispatch round,
and `Scoring` says what each criterion weighs; `Lifecycle` interleaves the database statements of the dispatch loop,
the status handler, the cancel requests and the offline handler; `TaskStore` holds the operations as methods and shows
that undisturbed statements amount to them. `ConnManager` is the firmware's connection state machine with its loss
timers in 32-bit ticks, and `ConnProgress` says how it enters its states and reaches direct mode. `Heartbeat` has both
delta differs and the receiver's mirror.

State that the code updates in place is a class, or an array, and each method is proved equal to a function of the
old state; the theorems are about those functions and about runs of them.

## Where the code and its documentation differ

The model follows the code. For each difference one lemma shows an input where the documented claim fails and another
says exactly when it holds.

- The remark that the checksum over a whole frame is zero (crates/bcp-core/src/crc.rs:26-29) is true of a checksum
  stored high byte first (`Corruption.HighFirstResidue`). The codec stores it low byte first
  (crates/bcp-core/src/codec.rs:58-60); then it fails for the message of one zero byte
  (`Corruption.StoredResidueFails`) and holds if and only if the two bytes are equal (`Corruption.StoredResidueExactly`).
- For the same reason one pattern of damage across the last data byte and the stored low byte is accepted
  (`Corruption.StraddlingCorruptionExists`), and only that one (`Corruption.StraddlingCorruptionExactly`).
- `encode` does not check that a payload length fits its length byte. A frame with one full firmware chunk is encoded
  and does not come back (`Codec.RoundTripFails`); the round trip holds if and only if every payload fits and the
  version is current (`Codec.RoundTripExactly`).
- Packing does not stop at the first command that does not fit (crates/bcp-core/src/builder.rs:45), and draining is
  not in priority order (crates/bcp-core/src/builder.rs:87): the packer skips and goes on
  (`PackingOrder.PackingGoesOn`). A build stops at the first misfit if and only if nothing behind the longest fitting
  prefix of the sorted queue would still fit behind it (`PackingOrder.BuildStopsAtMisfitExactly`), and that is also
  when no entry overtakes another (`PackingOrder.OvertakingExactly`). Draining is in order of priority and arrival if
  and only if every frame stops like that, over the entries that fit alone (`PackingOrder.DrainsInOrderExactly`), and
  in order of priority if and only if a walk over lengths and ranks finds nothing less urgent that fits behind a
  frame's first misfit (`PackingOrder.DrainsByPriorityExactly`). Only smaller commands ever overtake (`Builder.NoOvertaking`).
- The pool promises to reuse the short id of a machine that reconnects (services/gateway/src/conn_pool.rs:64). A
  machine that connects twice to an empty pool gets 1 and then 2 (`ConnPool.ReconnectGetsNewId`); the id is kept if and
  only if all ids from the cursor up to it are in use (`ConnPool.ReuseExactly`).
- WiFi recovery does not lead from BLE straight to the WebSocket (firmware/components/comm/conn_manager.c:8): it leads
  to WIFI_CONNECTED if and only if the robot was in direct mode before (`ConnManager.RecoveryExactly`). A robot that
  fell back to BLE before that never returns (`ConnManager.NoWayBack`), and a robot whose WiFi comes up twelve
  seconds after boot is one (`ConnManager.RecoveryFails`).
- A fragment puts two header bytes on top of `effectiveMtu` (mobile/ios/CompanionRobot/BLE/BleManager.swift:97), the
  limit that a single write respects: all writes respect it if and only if the frame needs no fragments
  (`Ble.WritesFitExactly`).

## Model

| member | source | states |
|---|---|---|
| Crc.TableEntry | crates/bcp-core/src/crc.rs:8-17 | the inner loop computes the remainder of eight shifts of the index |
| Crc.MakeTable | crates/bcp-core/src/crc.rs:4-22 | the loops fill the table with the entry of every index |
| Crc.Compute | crates/bcp-core/src/crc.rs:40-47 | the loop over the message returns the remainder of bit-serial division from the seed |
| Crc.TableIsDivision | crates/bcp-core/src/crc.rs:30-37 | from any register and over any message the table form equals MSB-first division by 0x1021 |
| LongDivision.StepBits | crates/bcp-core/src/crc.rs:10-15 | one turn of the register is one turn of polynomial long division |
| LongDivision.RegisterIsLongDivision | crates/bcp-core/src/crc.rs:30-37 | the final register is the remainder of the message times x^16 with the seed added to its highest coefficients |
| LongDivision.ChecksumIsRemainder | crates/bcp-core/src/crc.rs:30-37 | the checksum is the remainder modulo x^16 + x^12 + x^5 + 1 of the message times x^16 with its first 16 bits complemented |
| Crc.SeedContinues | crates/bcp-core/src/crc.rs:39-47 | seeding with the checksum of a and continuing over b gives the checksum of a followed by b |
| Crc.DivideLinear | crates/bcp-core/src/crc.rs:30-37 | remainders add bitwise: the checksum is linear over GF(2) |
| Crc.ZerosKeepNonZero | crates/bcp-core/src/crc.rs:30-37 | trailing zero bits keep a zero remainder zero and a non-zero one non-zero |
| Crc.PreloadDivision | crates/bcp-core/src/crc.rs:30-37 | clocking in at most 16 bits equals preloading them and clocking in zeros |
| Crc.BurstRemainder | crates/bcp-core/src/crc.rs:30-37 | a pattern of at most 16 bits surrounded by zeros has remainder zero if and only if it is zero |
| Crc.BitBurstDetected | crates/bcp-core/src/crc.rs:30-37 | bit strings that differ only inside 16 bits have equal remainders if and only if they are equal |
| Crc.BurstDetected | crates/bcp-core/src/crc.rs:30-37 | equal-length messages that differ only inside 16 consecutive bits share a checksum if and only if they are equal |
| FirmwareCrc.LiteralsAreGenerated | firmware/components/bcp/bcp_codec.c:13-46 | every literal of the firmware's table is the generated entry |
| FirmwareCrc.Compute | firmware/components/bcp/bcp_codec.c:48-55 | the firmware's loop computes the checksum of the services, which is the bit-serial remainder |
| Commands.PayloadLength | crates/bcp-core/src/command.rs:274-313 | the declared payload length is the number of payload bytes, for every variant |
| Commands.GroupOf | crates/bcp-core/src/command.rs:226-271 | the high byte of the identifier is the command's group |
| Commands.ServoRoundTrip | crates/bcp-core/src/codec.rs:449-461 | a servo batch decodes to the servos it was written from |
| Commands.CommandRoundTrip | crates/bcp-core/src/codec.rs:142-619 | decoding a payload under its identifier gives the command back, for all 37 variants |
| Commands.DecodeExplains | crates/bcp-core/src/codec.rs:352-619 | a decoded command has the identifier it was decoded under and needs no more bytes than were given |
| WireFormat.PayloadFollowsTable | crates/bcp-core/src/codec.rs:142-349 | identifier and payload of each of the 37 variants are those of a table of fields, byte by byte |
| WireFormat.UnknownIdRefused | crates/bcp-core/src/codec.rs:352-619 | identifiers outside the command set are refused, whatever the payload |
| WireFormat.ShortPayloadIncomplete | crates/bcp-core/src/codec.rs:352-619 | a payload below the least length of its identifier is Incomplete |
| WireFormat.ExtraBytesIgnored | crates/bcp-core/src/codec.rs:352-619 | bytes behind the payload of a command of fixed size are ignored |
| WireFormat.NonZeroStops | crates/bcp-core/src/codec.rs:438-441 | any byte but zero asks for an emergency stop |
| WireFormat.UnknownValuesRefused | crates/bcp-core/src/codec.rs:408-619 | values outside an enumeration are refused under the identifier of their command |
| WireFormat.ServoBatchOutcome | crates/bcp-core/src/codec.rs:449-461 | a batch holds the servos at their places, or is refused for want of bytes or for more than 32 servos, for every payload |
| Encoder.EncodeServos | crates/bcp-core/src/codec.rs:213-221 | the loop writes the count and the servos and nothing else |
| Encoder.EncodePayload | crates/bcp-core/src/codec.rs:142-349 | exactly the payload bytes are written at the position, and no other byte changes |
| BcpCodec.PutHeader | crates/bcp-core/src/codec.rs:33-40 | exactly the eight header bytes are written |
| BcpCodec.PutCommand | crates/bcp-core/src/codec.rs:44-55 | identifier, truncated length and payload are written at the cursor and nothing else |
| BcpCodec.PutBody | crates/bcp-core/src/codec.rs:42-55 | the cursor loop writes header and commands without gap or overlap |
| BcpCodec.Encode | crates/bcp-core/src/codec.rs:22-63 | the outcome for every frame and buffer; on success the buffer is the encoding followed by its old rest, on failure it is untouched |
| BcpCodec.ReadServos | crates/bcp-core/src/codec.rs:449-461 | the servo loop decodes the batch, including both ways it can fail |
| BcpCodec.ReadOne | crates/bcp-core/src/codec.rs:114-127 | one turn of the command loop, on success and on every error |
| BcpCodec.ReadCommands | crates/bcp-core/src/codec.rs:109-130 | the moving position parses the same commands as the recursive parser |
| BcpCodec.ReadFrame | crates/bcp-core/src/codec.rs:93-138 | behind the length checks: command count, checksum and commands, errors in the same order |
| BcpCodec.Decode | crates/bcp-core/src/codec.rs:69-139 | on every byte sequence the result is that of the specification, errors in the same order |
| FrameChecks.EncodeAnswers | crates/bcp-core/src/codec.rs:22-30 | the encoded length in terms of the payloads, and which of the two limits refuses a frame |
| FrameChecks.HeaderOnTheWire | crates/bcp-core/src/codec.rs:32-60 | header and checksum of every encoded frame, byte by byte and low bytes first |
| FrameChecks.CommandOnTheWire | crates/bcp-core/src/codec.rs:44-55 | every command is its identifier, the low byte of its payload length and the fields of the table |
| FrameChecks.MoveAndLed | crates/bcp-core/src/codec.rs:32-55 | all bytes before the checksum of one frame with two commands |
| FrameChecks.TooShortRefused | crates/bcp-core/src/codec.rs:70-72 | fewer than 10 bytes are Incomplete |
| FrameChecks.BadMagicRefused | crates/bcp-core/src/codec.rs:74-77 | a first byte other than 0xCB is BadMagic |
| FrameChecks.BadVersionRefused | crates/bcp-core/src/codec.rs:79-82 | a second byte other than 1 is then BadVersion |
| FrameChecks.BadLengthRefused | crates/bcp-core/src/codec.rs:85-88 | a length field outside 10 to 1024 is then BadFrameLength |
| FrameChecks.CutOffRefused | crates/bcp-core/src/codec.rs:89-91 | fewer bytes than the length field says are then Incomplete |
| FrameChecks.TooManyRefused | crates/bcp-core/src/codec.rs:97-99 | a count above 32 is then TooManyCommands |
| FrameChecks.WrongChecksumRefused | crates/bcp-core/src/codec.rs:101-106 | a stored checksum other than that of all bytes before it is then CrcMismatch |
| FrameChecks.CommandsDecide | crates/bcp-core/src/codec.rs:108-138 | otherwise the commands between header and checksum decide the outcome, and the frame has version 1 and the sequence number of bytes 4 and 5 |
| FrameChecks.DecodedSays | crates/bcp-core/src/codec.rs:69-139 | whatever decodes starts with 0xCB and 1, has a length from 10 to 1024, at most 32 commands and the right checksum |
| FrameChecks.GoodChunks | crates/bcp-core/src/codec.rs:114-130 | commands that decode are read one after another, and what follows them decides the rest |
| FrameChecks.BadChunk | crates/bcp-core/src/codec.rs:126 | the first command that does not decode decides the error |
| FrameChecks.CutChunk | crates/bcp-core/src/codec.rs:115-124 | a region that ends within a command is Incomplete |
| FrameChecks.SlackIgnored | crates/bcp-core/src/codec.rs:114-138 | bytes behind the last command of the count are ignored |
| Codec.HeaderFields | crates/bcp-core/src/codec.rs:32-60 | where every field of an encoded frame lies and what it reads as |
| Codec.RoundTrip | crates/bcp-core/src/codec.rs:22-139 | a faithful frame of at most 1024 bytes decodes to itself and its length, whatever bytes follow |
| Codec.RoundTripExactly | crates/bcp-core/src/codec.rs:22-139 | the round trip holds if and only if the version is current and every payload is at most 255 bytes |
| Codec.RoundTripFails | crates/bcp-core/src/codec.rs:45-54 | a frame with one firmware chunk of at least 252 data bytes is encoded and does not decode to itself |
| Codec.DecodedIsFaithful | crates/bcp-core/src/codec.rs:69-139 | any decoded frame is faithful and re-encodes into no more bytes than were consumed |
| Codec.Canonicalisation | crates/bcp-core/src/codec.rs:69-139 | re-encoding a decoded frame succeeds within the bytes consumed and decodes to the same frame, whatever was tolerated |
| Codec.TailIrrelevant | crates/bcp-core/src/codec.rs:84-138 | a successful decode does not depend on bytes past the consumed ones |
| Codec.StrictPrefixIncomplete | crates/bcp-core/src/codec.rs:70-91 | every strict prefix of an encoded frame yields Incomplete |
| Codec.SelfDelimiting | crates/bcp-core/src/codec.rs:69-139 | frames end to end, the last one cut anywhere, are split back into exactly those frames and the unfinished bytes |
| Codec.StreamInjective | crates/bcp-core/src/codec.rs:69-139 | two lists of frames with the same bytes are the same list |
| Corruption.BurstRejected | crates/bcp-core/src/codec.rs:101-106 | damage inside 16 consecutive bits before the checksum, outside the length field, is an error |
| Corruption.AdjacentCorruptionRejected | crates/bcp-core/src/codec.rs:101-106 | damage to two adjacent bytes, both before the checksum or both in it, outside the length field, is an error |
| Corruption.SingleCorruptionRejected | crates/bcp-core/src/codec.rs:101-106 | changing any one byte outside the length field is an error |
| Corruption.StraddlingCorruptionExactly | crates/bcp-core/src/codec.rs:58-60 | damage to the last data byte and the stored low byte is accepted if and only if there is none or its bits are 0x89 and 0xA1 |
| Corruption.StraddlingCorruptionExists | crates/bcp-core/src/codec.rs:101-106 | two different frames whose encodings differ in those two bytes only and both decode |
| Parity.ChecksumParity | crates/bcp-core/src/crc.rs:30-37 | the checksum has the parity of its message |
| Parity.OddDamageDetected | crates/bcp-core/src/crc.rs:30-37 | messages that differ in an odd number of bits, however spread out, never share a checksum |
| Parity.DecodedIsEven | crates/bcp-core/src/codec.rs:69-106 | every frame that decodes has an even number of one bits, its checksum included |
| Parity.OddCorruptionRejected | crates/bcp-core/src/codec.rs:101-106 | damage to an odd number of bits outside the length field is an error, wherever the bits are, the border to the checksum included |
| Corruption.HighFirstResidue | crates/bcp-core/src/crc.rs:26-29 | with the checksum appended high byte first the checksum of the whole is zero |
| Corruption.StoredResidueExactly | crates/bcp-core/src/crc.rs:26-29 | with the checksum stored low byte first it is zero if and only if the two bytes are equal |
| Corruption.StoredResidueFails | crates/bcp-core/src/crc.rs:26-29 | the message of one zero byte, for which it is not zero |
| Sorting.SortSorts | crates/bcp-core/src/builder.rs:55-62 | insertion sort orders its result |
| Sorting.SortIsStable | crates/bcp-core/src/builder.rs:55-62 | elements with equal keys keep their order |
| Sorting.SortedUnique | crates/bcp-core/src/builder.rs:55-62 | a sorted sequence with given key classes is unique, so stable sorting has one possible result |
| Builder.PackSplits | crates/bcp-core/src/builder.rs:64-78 | frame and leftovers are complementary subsequences |
| Builder.PackIsMaximal | crates/bcp-core/src/builder.rs:67-78 | the frame respects both limits and no leftover would still fit into it |
| Builder.BuildRefinesStableSort | crates/bcp-core/src/builder.rs:54-84 | a build takes and leaves complementary subsequences of the stable sort, within the length limit, and as much as fits |
| Builder.DrainConserves | crates/bcp-core/src/builder.rs:88-94 | emitted plus remaining is what was queued, at most one frame an entry; what remains is exactly what does not fit an empty frame |
| Builder.DrainFits | crates/bcp-core/src/builder.rs:88-94 | every drained frame is within the length limit |
| Builder.PushQueues | crates/bcp-core/src/builder.rs:28-30 | a push queues its command last, under its own priority and with the next ticket, or is refused at 32 entries with the queue unchanged |
| Builder.RunConserves | crates/bcp-core/src/builder.rs:28-84 | over any run of pushes and builds nothing is lost or duplicated |
| Builder.SortRanks | crates/bcp-core/src/builder.rs:54-62 | on reachable queues the sort orders by priority and then by arrival |
| Builder.RunKeepsOrderly | crates/bcp-core/src/builder.rs:28-84 | in every reachable queue entries of one priority stand in order of arrival |
| Builder.SortIsUrgent | crates/bcp-core/src/types.rs:102-111 | sorting puts emergencies first, then motion, then expression, then best effort |
| Builder.BuildIsUrgent | crates/bcp-core/src/builder.rs:54-78 | so does a build of any queue: nothing in a frame is preceded by something less urgent |
| Builder.BuildKeepsArrival | crates/bcp-core/src/builder.rs:54-78 | within one priority a build of a reachable queue keeps the order of arrival |
| Builder.FrameCarries | crates/bcp-core/src/builder.rs:64-84 | a frame carries version 1, the sequence number asked for and the commands of its batch in order |
| Builder.TakenTogether | crates/bcp-core/src/builder.rs:68-78 | within one build, if the no shorter successor is taken so is the entry that precedes it |
| Builder.NoOvertaking | crates/bcp-core/src/builder.rs:54-76 | over any run, an entry that precedes another of no smaller size is emitted before it |
| PackingOrder.StopsAtMisfitExactly | crates/bcp-core/src/builder.rs:68-78 | packing takes the longest fitting prefix and then only what fits behind it; it takes just that prefix if and only if nothing behind it would still fit |
| PackingOrder.BuildStopsAtMisfitExactly | crates/bcp-core/src/builder.rs:45-84 | for every queue, a build stops at its first misfit if and only if nothing fits behind the longest fitting prefix of the sorted queue |
| PackingOrder.OvertakingExactly | crates/bcp-core/src/builder.rs:68-78 | for every reachable queue, a build lets some entry overtake one that precedes it if and only if something behind the longest fitting prefix would still fit |
| PackingOrder.DrainsInOrderExactly | crates/bcp-core/src/builder.rs:87-94 | for every reachable queue, draining is in order of priority and arrival if and only if, over the entries that fit alone, every frame stops at its first misfit |
| PackingOrder.PassesUrgentExactly | crates/bcp-core/src/builder.rs:68-78 | for every queue, a build takes an entry past a more urgent one if and only if, walking the lengths and ranks of the sorted queue, something of a higher rank than the first misfit still fits |
| PackingOrder.DrainsByPriorityExactly | crates/bcp-core/src/builder.rs:87-94 | for every reachable queue, draining is in order of priority if and only if that walk, over the entries that fit alone and then over what each frame leaves, meets no such entry |
| PackingOrder.PackingGoesOn | crates/bcp-core/src/builder.rs:68-78 | a queue of three whose build goes on behind a misfit and whose draining is out of priority order |
| Builder.DrainedStreamSplits | crates/bcp-core/src/builder.rs:88-94 | drained frames laid end to end on the wire split back into exactly those frames |
| FrameBuilder.FrameBuilder.Add | crates/bcp-core/src/builder.rs:28-30 | the entry is queued last, or handed back at 32 entries with the queue unchanged |
| FrameBuilder.FrameBuilder.SwapDown | crates/bcp-core/src/builder.rs:57-61 | the swaps move one entry to its place in the sorted prefix |
| FrameBuilder.FrameBuilder.SortEntries | crates/bcp-core/src/builder.rs:54-62 | the in-place loops compute the stable sort |
| FrameBuilder.FrameBuilder.Build | crates/bcp-core/src/builder.rs:49-85 | new queue and frame are those of the specification; the frame has version 1 and 1 to 32 commands; no failing push is ever ignored |
| FrameBuilder.FrameBuilder.DrainAll | crates/bcp-core/src/builder.rs:88-94 | the loop ends and returns every batch as a frame; none of them is dropped |
| ConnPool.ConnPool.AllocateId | services/gateway/src/conn_pool.rs:133-149 | the loop ends; it returns the first free id from the cursor, or panics with all ids in use |
| ConnPool.ConnPool.Register | services/gateway/src/conn_pool.rs:56-99 | the whole new state and the outcome |
| ConnPool.ConnPool.Unregister | services/gateway/src/conn_pool.rs:102-108 | the whole new state |
| ConnPool.RegisterKeepsConsistent | services/gateway/src/conn_pool.rs:56-99 | registration keeps the maps mutually inverse, id 0 unused and the limit |
| ConnPool.UnregisterKeepsConsistent | services/gateway/src/conn_pool.rs:102-108 | unregistration keeps them too |
| ConnPool.SweepExhausted | services/gateway/src/conn_pool.rs:133-149 | the sweep fails if and only if all 65535 ids are in use |
| ConnPool.RegisterOutcome | services/gateway/src/conn_pool.rs:56-99 | exactly when registration is refused or panics; a failure changes nothing, a success hands out an id no other machine uses, under which all data of the connection are kept, and leaves other entries alone |
| ConnPool.RegisteredMachines | services/gateway/src/conn_pool.rs:79-99 | a successful registration points its machine at the new id and leaves the entries of other machines and the limit alone |
| ConnPool.UnregisterOutcome | services/gateway/src/conn_pool.rs:102-108 | an unregistration takes exactly that connection out of all three maps and leaves the cursor |
| ConnPool.ReuseExactly | services/gateway/src/conn_pool.rs:64-77 | a reconnecting machine keeps its short id if and only if all ids from the cursor up to it are in use |
| ConnPool.ReconnectGetsNewId | services/gateway/src/conn_pool.rs:64-77 | a machine that connects twice to an empty pool gets id 1 and then id 2 |
| Gateway.RunKeepsConsistent | services/gateway/src/conn_pool.rs:56-108 | every reachable pool is consistent |
| Gateway.HandOutSweeps | services/gateway/src/conn_pool.rs:133-149 | the id handed out is the first free one, and every id the cursor skipped was in use |
| Gateway.SweepCovers | services/gateway/src/conn_pool.rs:133-149 | when an id comes round again, every other id was in use before or has been handed out since |
| Gateway.Quarantine | services/gateway/src/conn_pool.rs:133-149 | between two hand-outs of one id at least 65535 - max_connections other ids are handed out |
| Gateway.RunKeepsSound | services/gateway/src/ws_server.rs:84-184 | every state the handlers can bring about is consistent |
| Gateway.EntryStays | services/gateway/src/conn_pool.rs:56-108 | an id still in the pool belongs to whoever had it unless it was handed out again |
| Gateway.OwnerStays | services/gateway/src/conn_pool.rs:56-108 | a registration stays with its owner while few others follow |
| Gateway.StaleHandlerHarmless | services/gateway/src/ws_server.rs:86-181 | in any interleaving with at most 65535 - max_connections other registrations, a handler's cleanup removes its own registration or nothing |
| Gateway.ConnectHolds | services/gateway/src/ws_server.rs:86-95 | a connection let in is held by its handler under its id, with all its data; one refused leaves no trace |
| Gateway.HandlerEnds | services/gateway/src/ws_server.rs:86-181 | a cleanup removes exactly the held id, once; an abort leaves the pool alone |
| Gateway.OwnCleanup | services/gateway/src/ws_server.rs:178-181 | a handler whose id is still its own does remove its registration |
| GatewayBound.TightUnderEveryLimit | services/gateway/src/ws_server.rs:86-181 | for every limit below 65535 there is a run with one registration more, from an idle gateway, after which a stale handler's id belongs to another machine |
| GatewayBound.TightForOneselfUnderEveryLimit | services/gateway/src/ws_server.rs:86-181 | for every limit up to 65535 there is one after which it belongs to a newer connection of the same machine |
| Ble.SendBcpFrame | mobile/ios/CompanionRobot/BLE/BleManager.swift:93-121 | the loop writes the fragments of the specification |
| Ble.FragmentsCarry | mobile/ios/CompanionRobot/BLE/BleManager.swift:106-118 | the fragments carry the frame in order and without loss |
| Ble.FragmentsAnnounce | mobile/ios/CompanionRobot/BLE/BleManager.swift:104-118 | every fragment starts with the length of the whole frame, high byte first |
| Ble.WritesFitExactly | mobile/ios/CompanionRobot/BLE/BleManager.swift:97-118 | every write is within the effective MTU if and only if the frame needs no fragments |
| Ble.Receiver.HandleReceivedData | mobile/ios/CompanionRobot/BLE/BleManager.swift:125-159 | the whole new buffer and the frame handed on |
| Ble.Receiver.HandleAll | mobile/ios/CompanionRobot/BLE/BleManager.swift:125-159 | any sequence of notifications yields the frames and the buffer of the specification |
| Ble.WithoutHeader | mobile/ios/CompanionRobot/BLE/BleManager.swift:125-150 | data below two bytes change nothing; data whose first two bytes, high byte first, are zero or above 1024 are handed on whole |
| Ble.FirstFragment | mobile/ios/CompanionRobot/BLE/BleManager.swift:132-158 | a fragment on an empty buffer opens it with its length and time, completes the frame, or is dropped after two seconds |
| Ble.FurtherFragment | mobile/ios/CompanionRobot/BLE/BleManager.swift:132-158 | a fragment on a partial buffer is appended to it whatever length it announces; the time of the first one decides the timeout |
| Ble.WholeFrameRecovers | mobile/ios/CompanionRobot/BLE/BleManager.swift:139-150 | an unfragmented frame gets through from any stale state and leaves the buffer clean |
| Ble.TooShort | mobile/ios/CompanionRobot/BLE/BleManager.swift:132-150 | the rest of a frame whose beginning was lost hands nothing on |
| Ble.FragmentsReassemble | mobile/ios/CompanionRobot/BLE/BleManager.swift:125-159 | from the middle of a frame, it comes out once if and only if no timeout intervenes |
| Ble.FrameExactly | mobile/ios/CompanionRobot/BLE/BleManager.swift:93-159 | one frame into a clean buffer, under any MTU, comes out once if and only if its chunks arrive in time, and otherwise nothing does |
| Ble.Reassembled | mobile/ios/CompanionRobot/BLE/BleManager.swift:93-159 | any list of frames comes out as exactly that list and leaves the buffer clean |
| Ble.BuffersArePartial | mobile/ios/CompanionRobot/BLE/BleManager.swift:125-159 | between notifications a buffer is empty or holds less than it expects |
| Ble.StaleFrame | mobile/ios/CompanionRobot/BLE/BleManager.swift:132-158 | a fragmented frame on a stale partial buffer is spliced onto it: what comes out is those bytes cut to the stale length, if they complete it before a timeout, and nothing otherwise |
| Ble.StaleFrameExactly | mobile/ios/CompanionRobot/BLE/BleManager.swift:132-158 | it comes out intact if and only if the stale length is its own, stale bytes and frame together start like the frame, and no timeout intervenes |
| Ble.EncodedFramePasses | mobile/ios/CompanionRobot/BLE/BleManager.swift:93-159 | an encoded frame passes through fragmentation and decodes to itself |
| Nms.IouBounds | services/ai/src/vision.rs:234-263 | the measure is symmetric and between 0 and 1 for all boxes |
| Nms.IouSelf | services/ai/src/vision.rs:234-263 | a box with an extent overlaps itself completely |
| BoxOverlap.IouLaw | services/ai/src/vision.rs:234-263 | in terms of the corners of any two boxes: the measure times the area that both cover together is the area that they share, and it is zero where they share none |
| BoxOverlap.DisjointExactly | services/ai/src/vision.rs:244-252 | it is zero if and only if no point lies inside both boxes |
| BoxOverlap.ShiftedBoxes | services/ai/src/vision.rs:234-263 | two boxes of one size, d apart along an axis, have (w - d) / (w + d) |
| BoxOverlap.NestedBoxes | services/ai/src/vision.rs:234-263 | a box inside another has the quotient of their areas |
| Nms.NonMaxSuppression | services/ai/src/vision.rs:197-232 | the loops over the keep flags compute the suppression of the specification |
| Nms.Sound | services/ai/src/vision.rs:208-223 | two kept detections of one class overlap at most by the threshold |
| Nms.Complete | services/ai/src/vision.rs:208-223 | where a detection occurs less often in the result than in the input, a kept one of its class and of at least its confidence overlaps it by more than the threshold |
| Nms.KeptIsSorted | services/ai/src/vision.rs:202-232 | the result is ordered by falling confidence and holds nothing new |
| Nms.KeptIsPart | services/ai/src/vision.rs:225-231 | the result is part of the input, with multiplicity |
| Nms.Idempotent | services/ai/src/vision.rs:197-232 | a second run changes nothing |
| Scheduler.SelectsFirstMinimum | services/scheduler/src/scheduler.rs:214-238 | the selected robot is the first eligible one of minimum score; none is selected if and only if none is eligible |
| Scoring.BatteryWeighs | services/scheduler/src/scheduler.rs:196-197 | one percent of battery is worth 0.002, an unknown charge counts as 100% |
| Scoring.LoadWeighs | services/scheduler/src/scheduler.rs:193-194 | each active task costs 0.02 up to the tenth and nothing from there on |
| Scoring.AffinityWeighs | services/scheduler/src/scheduler.rs:199-204 | the preferred robot is ahead of any other by 0.30 and of itself without a preference by 0.15 |
| Scoring.DistanceWeighs | services/scheduler/src/scheduler.rs:182-191 | the distance weighs 0.30 for 50 metres, in proportion, and 0.15 if any of the four coordinates is missing |
| Scoring.BestWithoutDistance | services/scheduler/src/scheduler.rs:180-210 | an idle, preferred and fully charged robot without a position scores 0.15 |
| Scoring.EligibleExactly | services/scheduler/src/scheduler.rs:219-232 | who is a candidate, for each task type and its capabilities by name |
| Scoring.LowerBatteryLoses | services/scheduler/src/scheduler.rs:214-238 | of two robots alike but for their batteries the lower one is not chosen |
| Scoring.BusierLoses | services/scheduler/src/scheduler.rs:214-238 | of two robots alike but for their loads the busier one is not chosen, unless both have ten tasks or more |
| Scoring.PreferredWins | services/scheduler/src/scheduler.rs:214-238 | of two robots alike but for their ids the preferred one goes first |
| Scoring.FartherLoses | services/scheduler/src/scheduler.rs:214-238 | of two robots alike but for their places the farther one is not chosen, if the square root increases |
| Scheduler.ListPendingRows | services/scheduler/src/scheduler.rs:97-103 | a round reads every pending row once, the smallest priority number first, and rows of equal priority in order of id |
| Scheduler.RoundPointwise | services/scheduler/src/scheduler.rs:339-357 | a round sends every pending row to the robot decided for it and touches no other |
| Scheduler.UntargetedTask | services/scheduler/src/scheduler.rs:339-357 | without a target a pending row runs on the first eligible robot of minimum score, or stays pending if and only if none is eligible |
| Scheduler.FoundRobot | services/scheduler/src/scheduler.rs:341-342 | the robot found is the first with the id asked for, and none is found if and only if none has it |
| Scheduler.TargetedTask | services/scheduler/src/scheduler.rs:339-346 | a task with a target runs on it if the snapshot has it, whatever its battery and capabilities, and stays as it is otherwise |
| Scheduler.CreatedTask | services/scheduler/src/scheduler.rs:62-89 | the new row field by field, with its defaults and the wrapped retry limit; unknown types add nothing |
| Scheduler.RobotLost | services/scheduler/src/nats.rs:97-128 | when a robot goes offline its running tasks become pending without a target, and every other task stays as it is |
| Lifecycle.StepSound | services/scheduler/src/scheduler.rs:299-433 | every database statement of every handler keeps the bound on dispatches, the bound on retries and the meaning of failure |
| Lifecycle.RunSound | services/scheduler/src/nats.rs:16-131 | every state that interleaved handlers can reach satisfies the same |
| Lifecycle.BoundedDispatch | services/scheduler/src/scheduler.rs:362-433 | in every run a row is dispatched at most once, plus once a retry, plus once an offline requeue; retries stay within the limit; failure means they are used up |
| Lifecycle.RunMonotone | services/scheduler/src/scheduler.rs:166-175 | retry counts never fall and limits never change |
| TaskStore.TaskStore.CreateTask | services/scheduler/src/scheduler.rs:62-89 | a row with the defaults and the truncated retry limit is added, or nothing for an unknown type |
| TaskStore.TaskStore.SetTaskFailed | services/scheduler/src/scheduler.rs:420-433 | back to pending with one retry more while retries are left, failed otherwise |
| TaskStore.TaskStore.CancelTask | services/scheduler/src/api.rs:67-91 | refused for unknown and for finished rows, which stay as they are |
| TaskStore.TaskStore.DispatchPending | services/scheduler/src/scheduler.rs:308-358 | one pass of the dispatch loop computes the round of the specification |
| TaskStore.DispatchBoundAttained | services/scheduler/src/scheduler.rs:362-433 | for every retry limit and every number of offline requeues some run reaches the bound, so it is exact |
| TaskStore.RoundRefines | services/scheduler/src/scheduler.rs:308-411 | undisturbed, the statements of a round amount to the round |
| TaskStore.FailureRefines | services/scheduler/src/scheduler.rs:420-433 | undisturbed, reading and writing a failed row amounts to the operation |
| TaskStore.CancelRefines | services/scheduler/src/api.rs:67-91 | undisturbed, the statements of a cancel request amount to the operation |
| TaskStore.FailedStatements | services/scheduler/src/scheduler.rs:369-391 | when a statement of a dispatch fails the round goes on: the row stays as it was, or pending with its new target if only the second one failed |
| TaskStore.CompletionRefines | services/scheduler/src/scheduler.rs:414-418 | a completion marks that row completed and changes nothing else |
| TaskStore.FailedTask | services/scheduler/src/scheduler.rs:420-433 | a failed row becomes pending with one retry more while the limit allows it, and failed otherwise; no other row changes |
| TaskStore.CancelledTask | services/scheduler/src/api.rs:67-91 | pending and running rows become cancelled, all others stay as they are |
| ConnManager.ConnManager.Turn | firmware/components/comm/conn_manager.c:173-280 | one turn of the loop computes the step of the specification |
| ConnManager.ConnManager.TurnAll | firmware/components/comm/conn_manager.c:172-280 | the loop from boot reaches the state that the runs of the specification reach |
| ConnManager.TimersAtRest | firmware/components/comm/conn_manager.c:221-275 | in every run the WiFi timer reads zero outside direct mode and the BLE timer when offline |
| ConnManager.WsTimerTracks | firmware/components/comm/conn_manager.c:221-235 | a running WiFi timer holds the time of a poll since which the link has been down |
| ConnManager.WsLeftOnlyAfterGrace | firmware/components/comm/conn_manager.c:221-235 | direct mode is left only for BLE and only after the link was down at every poll over more than 5000 ticks |
| ConnManager.OfflineOnlyAfterGrace | firmware/components/comm/conn_manager.c:250-265 | offline is reached only from BLE and only after BLE was down at every poll over more than 10000 ticks |
| ConnManager.WsGraceExactly | firmware/components/comm/conn_manager.c:221-235 | with polls at least every 2^31 ticks the grace period is exact, wrap-around and zero sentinel included |
| ConnManager.BleGraceExactly | firmware/components/comm/conn_manager.c:250-265 | the same for the BLE timer while WiFi does not recover |
| ConnManager.WasConnectedExactly | firmware/components/comm/conn_manager.c:221-222 | the flag says whether direct mode was ever polled |
| ConnManager.RecoveryExactly | firmware/components/comm/conn_manager.c:237-275 | a poll returns from BLE or offline to WiFi if and only if WiFi is up and direct mode was polled before |
| ConnManager.NoWayBack | firmware/components/comm/conn_manager.c:237-275 | a robot that falls back to BLE before it was in direct mode stays there for good |
| ConnManager.RecoveryFails | firmware/components/comm/conn_manager.c:192-202 | a run from boot at the loop's own period in which WiFi comes up after twelve seconds: it stays up and the robot stays in BLE mode |
| ConnProgress.EnteredExactly | firmware/components/comm/conn_manager.c:181-278 | for each state, exactly which polls enter it from another one, in every run |
| ConnProgress.DirectModeExactly | firmware/components/comm/conn_manager.c:181-235 | from any poll of any run: with both links up for three polls or more the robot is in direct mode, if and only if it had not fallen back to BLE before it ever was |
| ConnProgress.DirectModeFromBoot | firmware/components/comm/conn_manager.c:181-235 | direct mode is reached three polls after boot and lasts as long as the link |
| ConnProgress.BridgeReached | firmware/components/comm/conn_manager.c:237-275 | while BLE is up and WiFi does not come back, the bridge is up from the next poll on |
| Heartbeat.HeartbeatDiffer.Diff | crates/bcp-core/src/heartbeat.rs:23-47 | the delta and the new memory |
| Heartbeat.MirrorTracks | crates/bcp-core/src/heartbeat.rs:23-52 | over any reports and resets a receiver that applies the deltas holds the state last reported, also from a stale start after a reset |
| Heartbeat.StaleMirrorExactly | crates/bcp-core/src/heartbeat.rs:23-47 | from any stale mirror, over any number of reports: it is right in the end if and only if some report changed more than the battery, or it was right but for the battery and the battery was right or changed |
| Heartbeat.StaleReportExactly | crates/bcp-core/src/heartbeat.rs:23-47 | the same for one report, also of a differ without memory, in terms of the remembered, the mirrored and the reported state |
| Heartbeat.FirmwareDiffer.Diff | firmware/components/bcp/bcp_codec.c:479-514 | the firmware's differ emits the variants of the library's, whatever short ids the states carry |

## Left out

- Authentication (Ed25519, SHA-256), the rate limiter, sockets, WebSocket, NATS, Redis, metrics and logging: foreign
  code; only the state changes they trigger are steps.
- SQL: each statement is an atomic step on a table; the clock columns, `params` and `timeout_secs` are not kept, and
  rows created at the same instant are taken in order of id.
- The connection pool's `firmware_version` and `connected_at` columns, which no operation reads; the socket address and
  the channel of a connection are numbers.
- The rest of the C codec: it differs from the Rust one in several payloads and in unknown identifiers, so equality
  would be false.
- Android reassembly and the firmware's own BLE side: the former never sets its expected length on the complete-frame
  path, the latter sends no fragment header.
- `conn_send_heartbeat`: its status-change form omits two fields, so no receiver can mirror it.
- That finished and cancelled tasks stay so: status updates are unconditional and a round works on rows it read
  earlier, so the code does not keep this.
- Floating point: `Nms` and the scores of `Scheduler` are over the reals, without NaN and rounding; the square root is
  a parameter, and the 32-bit overflow of coordinate differences is not modelled.
- Encoder.PutFields: the fixed fields of a payload are stored one byte after another from a list instead of by one
  assignment each; the bytes, their order and their places are those of the code.
- Nms.NonMaxSuppression: the library's stable sort is the function `Sorting.Sort`, and the caller's vector is a value
  that goes in and a value that comes out.
- Ble.SendBcpFrame: an MTU of three or less, under which the source's loop does not advance, is excluded, as are data
  of 65536 bytes or more, which the source's header conversion traps on.
- Lifecycle.BoundedDispatch: one scheduler process; two of them would share the table without a lock.
- The connection manager's `reconnect_attempt`, which its loop only clears, and the radio calls it makes; the event bits
  of each poll are inputs.
- Dialogue history, log buffer, obstacle detection, EKF, IMU filter, PID, mel spectrogram, LED patterns, servo ramp,
  charge states, touch debounce, keyword matching, user interfaces, configuration.
