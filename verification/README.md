# The Archimedes pipe podule, modelled in Dafny

The podule is a 4 KB memory shared by an Archimedes and a microcontroller, with a USB serial link to a
Linux host behind it. This project models the four things that have to hold for a file to travel from
the host to the Archimedes and for a ROM to be read through a 1 KB window, and proves them for every
interleaving of the machines involved:

- **Descriptor queues** (`PoduleRegs`, `PoduleSpace`, `TxPipe`, `TxWire`, `TxDrops`, `TxPoll`, `TxProgress`,
  `TxSettling`, `RxPipe`, `RxPoll`, `RxFaults`, `RxProgress`, `RxSettling`, `RxStranded`): two processors share
  descriptor rings and one buffer per direction without a lock. Each bus access of the Archimedes, each
  descriptor access of the podule and each byte of its copies is one step of a state machine; an action list
  fixes the interleaving, the partial USB transfers and the link going up and down. The progress and settling
  modules show that packets do get across, and that with at most one under way no state of a run is stuck.
- **Poll loops** (`ArcWaits`, `TxPrompt`, `RxPrompt`): what the Archimedes' loops wait for, exactly when they
  time out, and conditions on the other parties under which they never do.
- **Framing** (`Framing`, `Shuffle`, `RxStream`, `Server`, `ServerReads`, `HostChannels`): a pure frame decoder
  over byte sequences is the specification that the podule's and the server's reassembly buffers meet, however
  the stream is cut.
- **The whole pipe** (`CopyClient`, `PipeSystem`, `PipeSafety`, `PipeReads`, `PipeTalk`, `PipeRuns`,
  `PipeProgress`, `PipeSettling`, `AnyClient`): the `pcpl` client, or any other that waits for its replies,
  both directions of shared memory, the link and the server in one state machine.
- **The ROM** (`PagedRom`, `RomAccess`, `ChunkFormat`, `ChunkDirectory`, `RomPipeline`): the loader's one-page
  cache and its handshake with the podule, the chunk directory writer and a parser for it, and the two put
  together.

Code that changes state step by step is imperative here too: `Podule.Podule` (pipe_packet.c over one flat
register array), `ArcPipe.Sender` and `ArcPipe.Receiver` (mod_pipe/pipe_packet.S), `Server.Server`
(server/main.c and server/channel_rawfile.c), `CopyClient.CopyBlocks` (the block loop),
`RomAccess.Loader` and `RomAccess.Firmware` (loader.S, arc_pipe_podule.c), `ChunkDirectory.CDEntry` and
`ChunkDirectory.ChunkDirectory` (mk_chunk_dir.py). Their methods are proved to do what the state machines or
the specification functions do. In `ArcPipe` and `RomAccess` every bus access goes through an object that
lets the other parties take any steps they like before the next access.

`Bits` gives the shifts and masks of C and ARM code on bounded integers, `Words` little-endian words, `Memory`
block copies into a buffer; `Wrappers` holds Option and `Sequences` repeated actions and splices.

## Where the code and its intent differ

- **Excess bytes.** pipe_packet.c:348-349 and server/main.c:204 subtract the position from the frame's end;
  the comments beside them ask for the opposite. Both forms are modelled (`Shuffle.Form`).
  `Shuffle.ShuffleExact` shows that the move is right if and only if the subtraction is the intended one, and
  that as written it always leaves the array. `Server.Server.PacketCheck` and `RxPoll.PollFaultExact`
  give the exact condition for one call of the two routines. For whole runs, with the intended subtraction
  every run is safe, and as written exactly those in which no frame is consumed with bytes behind it (the
  tests `state.rx_pos > state.rx_total` and `rx_pos > dend`): `RxPipe.RunFaultExact` for the podule,
  `PipeRuns.WholePipeSafety`, `AnyClient.AnyClientSafety` and `ServerReads.UplinkExact` for the server. Either
  can fail from power-up. In the podule any two packets can, if the first has less than 512 bytes
  (`RxFaults.TwoPacketsFault`), and only such (`RxFaults.FaultNeedsShortPacket`). In the server a single copy
  command never does (`PipeRuns.SingleCommandSafe`), and any second command after a copied file can
  (`PipeProgress.SecondCommandCanFault`).
- **A second packet in the buffer.** pipe_packet.c:386-389 calls pipe_rx only for USB data to read or a packet
  refused before. With the intended subtraction, two packets that fit the buffer together and are read together
  leave the second one undelivered until the server sends another (`RxStranded.SecondPacketStrands`). With at
  most one packet under way nothing can get stuck (`RxSettling.PacketCanArrive`, `PipeSettling.NeverStuck`).
- **A link that drops.** pipe_packet.c:396-399 forgets a transfer but leaves its descriptor READY. If the link
  is back by the next poll, part of a frame is on the wire and then the whole of it; `TxDrops.ResentDecodes`
  shows when the decoder finds the packet in that all the same, and `TxDrops.ReconnectMisleads` that from
  power-up it may not.
- **512-byte packets.** README.md:123 promises 1 to 512 bytes. pipe_packet.c:104 drops a packet whose end
  reaches the end of the buffer. `TxWire.CarriesAllUnlessFull` states the exact condition for transmit; receive
  carries 1 to 512.
- **Empty packets** are outside the contract: `PoduleRegs.RxCodecExact` shows that one would arrive as 512
  bytes on channel 127, server/main.c:188 waits for a fourth byte, and the handlers would take the next frame's
  first byte for the packet's (here they ignore such a packet).
- **RX buffer addresses.** The shifts at mod_pipe/pipe_packet.S:181-182 yield the bus offset only for
  address 0 (`PoduleRegs.RxAddressOnlyZero`), the only one the podule uses.
- **Copy length.** The block loop compares as signed 32-bit numbers. It copies right exactly up to 2^31 - 512
  bytes (`CopyClient.CopyLoopExact`, `CopyClient.CopyBlocks`). For an empty file it makes one request of no
  bytes, which the server answers with an empty packet that the pipe cannot carry, so the whole-pipe claims
  are for commands whose file, if it is there, has 1 to 2^31 - 512 bytes.
- **Page cache.** loader/loader.S:81 stores `current_page` before the handshake completes, so a read made after
  a timeout can take a page for loaded that is not there. `PagedRom.ReadsAreRom` shows that a read that finds
  the handshake flag down on entry is right, timeouts or not, as long as no earlier one has changed the page
  with the flag up. Both conditions are needed: `PagedRom.HastyReadIsWrong` and `PagedRom.TornReadIsWrong`
  give the wrong bytes. A podule that makes a step to each of the loader's accesses answers in time
  (`RomAccess.OneStepEach`), and then nothing times out at all.
- **Addresses from 2 GB** pass the signed size test of read_byte; `PagedRom.ReadsAreRom` says exactly which
  addresses are refused.
- **Chunk sizes** keep 24 bits only, and an identity byte of zero ends a directory:
  `ChunkFormat.RoundTripExact` is an if-and-only-if.

## Model

| member | source | states |
|---|---|---|
| PoduleRegs.TxCodec | podule_regs.h:51-62 | The podule's macros decode the word that the Archimedes' shifts encode: READY, address 0, the length, the low seven channel bits. |
| PoduleRegs.RxCodec | mod_pipe/pipe_packet.S:163-182 | The Archimedes' byte loads and shifts decode the word that pipe_rx_packet stores. |
| PoduleRegs.RxCodecExact | pipe_packet.c:251-254 | For every length up to 512, the receive round trip is exact if and only if the packet is not empty. |
| PoduleRegs.FieldsDisjoint | mod_pipe/pipe_packet.S:56-63 | Size, channel and READY share no bit, in either order of or-ing. |
| PoduleRegs.ReadyByte | pipe_packet.c:88 | READY seen by the podule is the top bit of the fourth byte seen by the Archimedes, whatever the other bytes hold; clearing it changes that byte only. |
| PoduleRegs.RxAddressOnlyZero | mod_pipe/pipe_packet.S:181-182 | The decoded bus offset is four times the address field if and only if that field is 0. |
| PoduleSpace.RegisterMap | podule_regs.h:62-140 | Rings, indices and buffers lie at the offsets that both sides use. |
| PoduleSpace.TxDescrWritten | podule_regs.h:48-49 | A store to a TX descriptor changes that descriptor and nothing else of either direction. |
| PoduleSpace.RxDescrWritten | podule_regs.h:48-49 | The same for an RX descriptor. |
| PoduleSpace.RxBufferWritten | podule_regs.h:138-140 | A packet copied into the RX buffer touches no descriptor, index or TX byte. |
| Framing.DecodeConserves | server/main.c:187-214 | Packets found and residue re-encode to exactly the input, and no whole frame is left over. |
| Framing.DecodeAppend | server/main.c:173-185 | Decoding may stop at any cut of the stream and go on from the residue. |
| Framing.DecodeOfFrames | pipe_packet.c:128-132 | Decoding the frames of any packet list gives that list back. |
| Framing.DecodePrefix | server/main.c:188-196 | From any part of a stream of frames that has arrived, the packets found are the first of those sent. |
| Framing.FramesInjective | pipe_packet.c:128-132 | Two streams of frames, one a prefix of the other, come from packet lists that are. |
| Shuffle.ShuffleExact | server/main.c:201-207 | The excess is moved as the comment asks if and only if the subtraction is the intended one; as written the move always leaves the array. |
| TxPipe.StepInv | mod_pipe/pipe_packet.S:38-111 | Every bus access of the Archimedes, every podule step and every change of the link keeps the transmit invariant. |
| TxWire.TransmitSafety | pipe_packet.c:94-210 | On a link that stays up, for every interleaving and every pattern of partial writes, the bytes sent are a prefix of the frames of the packets that fit. |
| TxWire.CarriesAllUnlessFull | pipe_packet.c:104-110 | With the Archimedes idle again, all packets are on the wire if and only if none was 512 bytes long. |
| TxPipe.PublicationSafety | mod_pipe/pipe_packet.S:46-87 | A TX descriptor sampled READY is one whole encoding of the last call, and the buffer holds its whole payload. |
| TxPipe.PublicationFrozen | pipe_packet.c:82-92 | Until the podule clears the descriptor, no step of either side touches descriptors or buffer. |
| TxPipe.RetiredOnce | pipe_packet.c:394-411 | Under any connects and disconnects each call is retired once, and the ring indices on both sides are the unbounded counts modulo the ring size. |
| TxPoll.DownDrains | pipe_packet.c:394-411 | With the link down a published packet is retired within two polls and nothing is sent. |
| TxPipe.LaunchInv | pipe_packet.c:128-172 | When the copy ends, the transmit buffer is exactly the packet's frame. |
| TxPoll.ContinueProgress | pipe_packet.c:179-210 | A poll of which the link takes a byte moves the transfer on, keeping what is still due, or retires its descriptor once. |
| TxPoll.TransferEnds | pipe_packet.c:179-210 | A transfer is over, with exactly its remaining bytes sent and one descriptor retired, after at most as many byte-accepting polls as it has bytes left. |
| TxPoll.PollIsRun | pipe_packet.c:370-413 | An uninterrupted transmit half of pipe_poll is a run of the podule's steps. |
| TxPoll.PollInvariant | pipe_packet.c:370-413 | So it keeps the transmit invariant. |
| TxProgress.CallCompletes | mod_pipe/pipe_packet.S:38-111 | From any state between calls on a link that has stayed up, every legal call has a run that ends with it retired, the Archimedes idle and the frames of all packets that fit on the wire. |
| TxProgress.DescriptorToWire | pipe_packet.c:94-210 | From a published descriptor, at most as many byte-accepting polls as the frame has bytes put exactly the frame on the wire and retire the descriptor once. |
| TxSettling.CallCanFinish | mod_pipe/pipe_packet.S:38-111 | From every state of every run on a link that has stayed up, steps of the two parties alone retire the call under way, with exactly the frames of the packets that fit on the wire. |
| TxDrops.WireInPieces | pipe_packet.c:394-411 | Under any connects and disconnects the wire is made of fronts of frames of the packets that fit, in order; a frame goes out whole at most once, and nothing more of it after that. |
| TxDrops.ReconnectResends | pipe_packet.c:396-399 | From power-up, any call that fits can leave any proper part of its frame and then the whole frame on the wire. |
| TxDrops.ResentDecodes | pipe_packet.c:396-399 | The decoder finds the packet first in such a stream if and only if what follows that part in the frame is the frame's own beginning. |
| TxDrops.ReconnectMisleads | pipe_packet.c:396-399 | So a frame cut before a byte other than its channel byte leads the decoder astray, in a run from power-up. |
| RxPipe.StepInv | pipe_packet.c:216-367 | Every step of server, link, podule and Archimedes keeps the receive invariant. |
| RxPipe.ReceiveSafety | mod_pipe/pipe_packet.S:126-204 | What pipe_packet_rx returns is a prefix, in order and byte for byte, of what was given to send_packet; unless some frame is consumed as written with bytes behind it, which is exactly when the podule faults, all the rest is still in the ring, the buffers or the link. |
| RxPipe.NothingLost | pipe_packet.c:342-363 | With the intended subtraction, or as written when no frame is consumed with bytes behind it: when nothing is on its way any more, everything given has been received. |
| RxPipe.BufferExclusive | pipe_packet.c:221-246 | While a packet is unconsumed the podule writes neither the RX buffer nor a descriptor. |
| RxPipe.LastReadyIffFlight | pipe_packet.c:230 | The descriptor created last is READY if and only if a packet is unconsumed. |
| RxPipe.Capacity | pipe_packet.c:292-318 | The 515-byte buffer is never full without a whole frame at its front, and a pending packet is one. |
| RxPipe.FaultExact | pipe_packet.c:342-363 | Consuming a frame runs out of the array if and only if the subtraction is as written and bytes of the next frame have been read. |
| RxPipe.RunFaultExact | pipe_packet.c:342-363 | The same over whole runs, any server and any interleaving: the podule faults if and only if the subtraction is as written and some frame is consumed with bytes behind it. |
| RxPoll.PollFaultExact | pipe_packet.c:272-367 | The same for one whole poll, in terms of what its read leaves in the buffer. |
| RxFaults.TwoPacketsFault | pipe_packet.c:342-363 | As written, from power-up, any packet of fewer than 512 bytes and any other after it have a run that faults. |
| RxFaults.FaultNeedsShortPacket | pipe_packet.c:342-363 | Every fault is of such a pair: the frame given up is of a packet of fewer than 512 bytes, and another has been given after it. |
| RxPipe.IntendedNeverFaults | pipe_packet.c:342-363 | With the intended subtraction no run faults. |
| RxPipe.OneAtATimeNeverFaults | pipe_packet.c:342-363 | A run in which each packet is given after the one before was received never consumes a frame with bytes behind it, and so never faults. |
| RxPipe.RingsFollowCounts | pipe_packet.c:256-259 | In every run the ring indices on both sides are the unbounded counts of packets accepted and received modulo the ring size, at most one apart. |
| RxPoll.PollIsRun | pipe_packet.c:272-367 | An uninterrupted pipe_rx is a run of the podule's steps. |
| RxPoll.PollInvariant | pipe_packet.c:272-367 | So it keeps the receive invariant. |
| RxProgress.PacketCompletes | pipe_packet.c:216-367 | With nothing on its way, every packet of 1 to 512 bytes given to send_packet has a run in which it is received and nothing is on its way again. |
| RxSettling.PacketCanArrive | pipe_packet.c:216-367 | From every state with at most one packet under way, inside pipe_packet_rx if there is one, steps of link, podule and Archimedes alone return it and bring everything to rest. |
| RxStranded.SecondPacketStrands | pipe_packet.c:386-389 | With the intended subtraction, from power-up: two packets that fit the buffer together, both sent before the podule reads, leave the second undelivered in every continuation in which the server sends nothing more. |
| RxStream.ReassemblyConserves | pipe_packet.c:272-367 | Whatever bytes the link brings, frames or not: frames accepted, bytes held and bytes to come are together the stream, and what is accepted is what the decoder finds first in it. |
| Podule.Podule.PipeInit | pipe_packet.c:63-80 | From pipe_init, with the Archimedes' indices zero, both machines start in an initial state, whatever the buffers hold. |
| Podule.Podule.PipeTxDone | pipe_packet.c:82-92 | Over the flat register array: the tail descriptor loses READY, the tail moves on, and the receive side stays. |
| Podule.Podule.PipeTxStart | pipe_packet.c:94-177 | Drops, sends or starts the packet as the step machine does, header and payload in the buffer. |
| Podule.Podule.PipeTxContinue | pipe_packet.c:179-210 | Sends on from the position reached and retires the packet when it is out. |
| Podule.Podule.PipeRxPacket | pipe_packet.c:216-262 | Refuses while the last descriptor is READY; otherwise buffer, descriptor, index and head are as the step machine leaves them. |
| Podule.Podule.PipeRx | pipe_packet.c:272-367 | Read, delivery and excess as the step machine has them; false exactly when the machine faults. |
| Podule.Podule.PipePoll | pipe_packet.c:370-413 | Both halves of a poll refine the step machines and keep both invariants. |
| ArcPipe.Sender.Fill | mod_pipe/pipe_packet.S:49-53 | Each store of the byte loop is the one the step machine makes next, one for each byte. |
| ArcPipe.Sender.Publish | mod_pipe/pipe_packet.S:81-87 | The same for the four descriptor bytes, least significant first. |
| ArcPipe.Sender.AwaitDone | mod_pipe/pipe_packet.S:96-104 | It makes as many loads as it takes to find bit 7 clear, each before that having found it set, and fails only after 0x100000 of them. It succeeds if and only if the others' steps before the last of these retire the packet. |
| ArcPipe.Sender.PipePacketTx | mod_pipe/pipe_packet.S:38-111 | The whole routine is a run of the machine for its call. It returns normally, with the packet retired and WS_TX_HEAD in step, if and only if the packet is retired between the descriptor's last store and the last of 0x100000 loads, which a prompt podule always achieves; it times out only after all of them. |
| TxPrompt.PromptRetires | pipe_packet.c:370-413 | A podule that makes 1563 steps within a poll loop, on a link that stays as it is and takes a byte at each transfer, retires the packet before the loop's last load. |
| TxPrompt.OneStepEach | mod_pipe/pipe_packet.S:96-104 | One such step to each access of the Archimedes is enough. |
| ArcPipe.Receiver.AwaitReady | mod_pipe/pipe_packet.S:153-161 | The same for the READY bit: it succeeds if and only if a packet is in flight before the last of 0x100000 loads. |
| ArcPipe.Receiver.ReadDescr | mod_pipe/pipe_packet.S:163-182 | The three other bytes are loaded and the fields taken from the word they make. |
| ArcPipe.Receiver.CopyOut | mod_pipe/pipe_packet.S:184-192 | The byte loop leaves the machine's payload in the caller's buffer. |
| ArcPipe.Receiver.PipePacketRx | mod_pipe/pipe_packet.S:126-204 | It returns the next packet, which was given to send_packet, with WS_RX_TAIL in step, if and only if one is in flight before the last of 0x100000 loads; with one packet given and a link and a podule that keep going that is always so. It times out only after all of them. |
| RxPrompt.PromptBrings | pipe_packet.c:216-367 | With one packet given, a link and a podule that both go on at every access bring it into flight before the poll loop's last load. |
| HostChannels.TypeRoundTrip | server/channel_rawfile.c:91-98 | The client's test and shifts find the type and stamp that crf_create_type stored. |
| HostChannels.TypeExact | mod_pipe/commands_rawfile.S:231-247 | On any load word the client's test holds if and only if its top twelve bits are set, and the type is in bits 8 to 19. |
| HostChannels.InfoText | server/main.c:123-133 | The host information read as the client reads it: version 1, the string with its NUL, zeros. |
| HostChannels.ClosedIsClosed | server/channel_rawfile.c:252-257 | After a Close no block request is answered until a file is opened. |
| HostChannels.BlockAnswer | server/channel_rawfile.c:234-249 | A request inside the open file is answered with exactly those bytes of it. |
| HostChannels.CountPrefix | server/channel_rawfile.c:212-260 | Fewer packets expect fewer replies, and as many only if they are all the packets. |
| Server.Server.SendPacket | server/main.c:93-109 | The transmitter owes exactly the packet's frame, and a busy one has been overwritten. |
| Server.Server.ChannelHostinfoRx | server/main.c:114-137 | A request with first byte 0 is answered with the host information and no other is. |
| Server.Server.ReadFile | server/channel_rawfile.c:245 | The buffer's front is the file's bytes from the offset; past the end it stays as it was. |
| Server.Server.ChannelRawfileRx | server/channel_rawfile.c:212-260 | Open, read, close and anything else do to file, buffer and transmitter what the pure handler says. |
| Server.Server.ProcessPacket | server/main.c:142-162 | The history of handlers stays that of serving the dispatched packets in order; the transmitter is found busy exactly when a reply meets an unfinished one. |
| Server.Server.CheckOnce | server/main.c:187-213 | One pass keeps the decoder's view and goes round again only with fewer bytes. |
| Server.Server.PacketCheck | server/main.c:187-214 | The loop ends with packets and residue those of the pure decoder; as written it fails exactly when a second frame has begun. |
| Server.Server.Receive | server/main.c:173-185 | Bytes read are appended and the decoder's view is of the longer stream. |
| Server.Server.ProcessInput | server/main.c:167-216 | It reads, and goes on exactly as long as reads return something and the shuffle stays in the array; however the reads cut the stream, dispatched packets and residue are those the decoder finds in the bytes read. A ready device has then handed over everything, unless the buffer is full. |
| Server.Server.WriteOnce | server/main.c:223-242 | What the device takes moves from what is owed to what is written. |
| Server.Server.ProcessOutput | server/main.c:218-244 | It writes, and goes on exactly until the packet is out or a write takes nothing; written and owed together stay the same bytes, and the device has what was written. With a ready device the packet is out. |
| Server.Server.ServiceTurn | server/main.c:287-298 | One turn of the service loop reads exactly if there is input and the transmitter is idle, writes exactly if something is owed, and keeps the server's invariant: dispatch refines the decoder and output is the replies' frames. |
| Server.ReassemblySafety | server/main.c:167-216 | For payloads of 1 to 4093 bytes the packets found are a prefix of those sent and there is always room for the next read. |
| CopyClient.LoopTiles | mod_pipe/commands_rawfile.S:179-226 | Up to 2^31 - 512 bytes the requests tile the file once, each of 1 to 512 bytes, and the loop stops after the last. |
| CopyClient.LoopOverruns | mod_pipe/commands_rawfile.S:224-226 | Above that, below 2^31, the loop does not stop with the file tiled. |
| CopyClient.LengthNegative | mod_pipe/commands_rawfile.S:192-195 | From 2^31 the first request already asks for too much. |
| CopyClient.CopyLoopExact | mod_pipe/commands_rawfile.S:179-226 | The loop stops with its requests tiling a non-empty file if and only if the length is at most 2^31 - 512. |
| CopyClient.CopyBlocks | mod_pipe/commands_rawfile.S:179-226 | For every length a register can hold, the block loop makes the requests that its 32-bit registers say, one block after the other, and ends with the local contents equal to the remote ones if and only if the length is at most 2^31 - 512; otherwise its last request is for more than 512 bytes. |
| PipeTalk.OpenPayload | mod_pipe/commands_rawfile.S:113-124 | The open request says so in its first byte, and the server reads the name from it that was typed, whatever else is in the scratch area. |
| PipeTalk.BlockPayload | mod_pipe/commands_rawfile.S:189-199 | The server reads from a block request the position and size that the client stored. |
| PipeTalk.RequestsMade | mod_pipe/commands_rawfile.S:113-199 | The client's three requests are of 257, 16 and 1 bytes on channel 2. |
| PipeTalk.FailureReported | mod_pipe/commands_rawfile.S:271-279 | When a local operation fails the client closes the host's file and reports the failure, never a copy. |
| PipeTalk.AnswerRead | server/channel_rawfile.c:221-233 | The client reads status, length, load and exec from the reply to an open as the server put them. |
| PipeTalk.BlockWritten | mod_pipe/commands_rawfile.S:215-226 | After each block the local file is the remote one up to the new position, and at the end it is all of it. |
| PipeTalk.ClientInv | mod_pipe/commands_rawfile.S:107-310 | Every move of the client keeps the invariant of the whole pipe. |
| PipeSafety.DispatchedPrefix | server/main.c:193-197 | The server has dispatched a prefix of the requests sent. |
| PipeSafety.AllAnswered | mod_pipe/commands_rawfile.S:127-130 | Once the last request has its reply, all requests are dispatched and all replies received. |
| PipeReads.NoSurplus | server/main.c:201-213 | With one request under way no read can bring bytes of a second. |
| PipeReads.DispatchAllKeeps | server/main.c:95-98 | For all packets of one read, each reply meets an idle transmitter. |
| PipeReads.ReplyGivenOrNoted | server/main.c:93-109 | A reply is given to the transmitter, or the fault is on record, and that exactly when the transmitter is busy or the pipe cannot carry the packet. |
| PipeReads.ReadInv | server/main.c:167-216 | A read of any length keeps the invariant of the whole pipe. |
| PipeRuns.StepInv | server/main.c:271-300 | Every step of the whole pipe keeps its invariant, except a server read that takes the branch with the subtraction as written. |
| PipeRuns.WholePipeSafety | server/main.c:93-300 | Over all runs, with any number of commands for files that the copy loop can handle: requests dispatched in order, send_packet never busy, at most one request unanswered, the n-th reply answers the n-th request and every reported result is right. With the intended subtraction always; as written if and only if no read leaves bytes of a second frame behind a whole one. |
| PipeRuns.UnsparedRunFaults | server/main.c:201-212 | As written, a run in which some read does leave such bytes ends with the server faulted. |
| PipeRuns.SingleCommandSafe | mod_pipe/commands_rawfile.S:107-310 | As written, every run with one command is free of such reads and so safe, however the link cuts the stream. |
| PipeRuns.CopiedFileIsRemoteFile | mod_pipe/commands_rawfile.S:144-269 | Over the same runs, all those that are safe, every copy reported done has the remote contents, load word and exec word, and gets the attribute call for them: its type if the load word's top twelve bits are set, both words if not. |
| PipeRuns.HostFileClosed | server/channel_rawfile.c:252-257 | Between commands of a safe run, once it has served what was sent, the server has no file open. |
| PipeRuns.ReadFaultExact | server/main.c:204 | A server read faults if and only if the subtraction is as written and bytes of a second frame follow a whole one. |
| PipeRuns.CloseWithOpenFaults | server/main.c:201-212 | A Close read together with the next Open is such a read, in any state. |
| PipeRuns.UplinkSafety | server/main.c:167-216 | From pipe_packet_tx to process_packet, for any calls, any interleaving, any partial writes and any cut of the reads: a prefix of the packets that fit, byte for byte, with room to read on. |
| ServerReads.ReadsFaultExact | server/main.c:167-216 | For any stream and any list of reads: the server faults if and only if the subtraction is as written and some read leaves bytes of a second frame behind a whole one; otherwise it has dispatched and holds exactly what the decoder finds. |
| ServerReads.UplinkExact | server/main.c:167-216 | From pipe_packet_tx to the server, whoever calls it: under the same exact condition the packets dispatched are the first of those that fit, with room to read on. |
| AnyClient.AnyClientSafety | server/main.c:93-300 | The whole-pipe claims for any client that sends packets of 1 to 511 bytes and waits for each reply expected before it sends again: always with the intended subtraction, and as written if and only if no read leaves surplus bytes. |
| AnyClient.RepliesAreAnswers | server/main.c:142-162 | Once such a client has as many replies as it expects, they are exactly the server's answers to its requests, in order. |
| AnyClient.ShippedRequests | mod_pipe/commands.S:73-150 | The test and info commands make requests that such a client may make; the second expects a reply and the first does not. |
| AnyClient.InfoIsPrinted | mod_pipe/commands.S:125-170 | The reply that the info command prints has 36 bytes on channel 1: the word 1, "ArcPipePodule host server" with its NUL, and zeros. |
| PipeProgress.CommandCompletes | mod_pipe/commands_rawfile.S:107-310 | From any state between commands there is a run, with either subtraction, that carries the next command to its end: the file copied with its attribute words if it is there, reported missing if not. |
| PipeProgress.AllCommandsComplete | mod_pipe/commands_rawfile.S:107-310 | From power-up, the same for any list of commands, without a read that leaves surplus bytes. |
| PipeProgress.SecondCommandCanFault | server/main.c:201-212 | As written, from power-up, a file copied and any second command have a run that takes the Close and the next Open in one read and so faults. |
| PipeProgress.TwoCallsReachSurplus | server/main.c:201-212 | Whoever calls pipe_packet_tx: any two packets that fit can be on the wire together from power-up, and one read of them faults as written. |
| PipeSettling.CommandCanEnd | mod_pipe/commands_rawfile.S:107-310 | From every state that a run without a fault can be in, with either subtraction, there is a way on without a fault that brings the command under way to its result and the pipe to rest. |
| PipeSettling.NeverStuck | mod_pipe/commands_rawfile.S:107-310 | So after any such run from power-up the command under way can end, and any next one can be carried through with the right outcome. |
| PagedRom.PageCodec | arc_pipe_podule.c:97-99 | The two bytes the loader writes are read back as its page number modulo 2^15, with the flag set. |
| PagedRom.OffsetIs | loader/loader.S:99-100 | The two shifts leave the address modulo 1024. |
| PagedRom.PageIndexIs | loader/loader.S:75 | The arithmetic shift gives the page of an address below 2 GB, and copies the top bit down above. |
| PagedRom.RejectedExact | loader/loader.S:66-74 | Below 2 GB the addresses refused are exactly those whose page the two registers cannot hold. |
| PagedRom.StepInv | loader/loader.S:51-104 | Every access of the loader and every step of the podule, down to one byte of the page copy, keeps the paging invariant. |
| PagedRom.ReadsAreRom | loader/loader.S:66-104 | Timeouts or not, as long as no read_byte changes the page with the handshake flag up, every byte returned by a call that found it down, for an address inside the ROM and below 32 MB, is the ROM's; without a timeout every call finds it down; the size error always comes exactly from 32 MB to 2 GB. |
| PagedRom.HistoryExact | loader/loader.S:66-104 | The history records exactly whether some read_byte passed its size test while the flag was up, and whether one changed the page then. |
| PagedRom.NoHalfWrittenPage | arc_pipe_podule.c:97-100 | As long as no page change is made with the flag up, the podule copies only a page that a whole request asked for, the one the loader waits for if it still waits, never one of which a byte is old. |
| PagedRom.WindowStill | loader/loader.S:99-102 | Over the same runs the podule is at rest while a call that found the flag down reads the window. |
| PagedRom.RetryAfterTimeout | loader/loader.S:76-94 | A read repeated at once after a timeout, the flag still up, returns what the window happens to hold. |
| PagedRom.HastyReadIsWrong | loader/loader.S:76-94 | From power-up, when the window holds another byte, a read that times out before the podule moves and is repeated with the flag up returns a byte that is not the ROM's. |
| PagedRom.TornReadIsWrong | loader/loader.S:76-94 | From power-up, when the two pages differ there, a page change made with the flag up makes a later read wrong that finds the flag down. |
| PagedRom.PollIsRun | arc_pipe_podule.c:85-106 | An uninterrupted poll is a run of at most 1029 of the podule's steps. |
| PagedRom.RemainingShrinks | arc_pipe_podule.c:85-106 | The steps left until the podule rests with the flag down are one fewer after each of its steps. |
| PagedRom.PollAnswers | arc_pipe_podule.c:97-106 | A poll answers the waiting request: flag down, window showing the page. |
| RomAccess.Loader.ResetPodule | loader/loader.S:51-62 | The reset register is one higher, and nothing is cached. |
| RomAccess.Loader.ChangePage | loader/loader.S:80-96 | Both bytes stored, low one first, then polled. It fails, after 0x100000 loads, if and only if the podule makes fewer steps, from the second store to the last poll, than its answer takes: 1029, or 5 for a page past the ROM's end. |
| RomAccess.Loader.ReadByte | loader/loader.S:66-104 | Unless the call times out, the answer is the ROM's byte as long as it found the flag down and no call changed the page with the flag up. It times out exactly when the page changes and the podule makes too few steps, and never if the podule is prompt; the size error comes exactly from 32 MB to 2 GB. |
| RomAccess.Loader.GetPage | loader/loader.S:75-97 | The page is requested exactly if it is not the current one. |
| RomAccess.OneStepEach | loader/loader.S:87-94 | A podule that makes a step to each of the loader's accesses always answers within the timeout. |
| RomAccess.Firmware.SwitchPage | arc_pipe_podule.c:52-61 | The window is the page, or unchanged if the page starts past the end. |
| RomAccess.PagingRegisters | podule_regs.h:41-45 | The page's two bytes and the reset counter are the first three registers. |
| RomAccess.Firmware.PodulePoll | arc_pipe_podule.c:85-113 | Window and registers change as in a run of the podule's steps; a changed reset register asks for pipe_init, once. |
| ChunkFormat.OSIBIs | tools/mk_chunk_dir.py:89-90 | The identity byte is the type's four low bits above the data type's four. |
| ChunkFormat.RoundingAgrees | tools/mk_chunk_dir.py:179 | `(l + 3) & ~3` and `(4 - l) & 3` agree for every size. |
| ChunkFormat.EntryAt | tools/mk_chunk_dir.py:198-206 | The k-th packed entry lies eight bytes after the one before. |
| ChunkFormat.NullAt | tools/mk_chunk_dir.py:207 | Eight zero bytes follow the last entry. |
| ChunkFormat.PayloadAt | tools/mk_chunk_dir.py:174-205 | The address that calculate gives an entry is where render puts its payload. |
| ChunkFormat.LayoutAgrees | tools/mk_chunk_dir.py:168-180 | Payloads come after the null entry, in order, without overlap, inside the image, and 4-aligned when the offset is. |
| ChunkFormat.ParseImage | tools/mk_chunk_dir.py:192-209 | With a header before and anything behind, a reader finds exactly what the format can express. |
| ChunkFormat.LegibleExact | tools/mk_chunk_dir.py:200-202 | That is all of it if and only if every identity byte is non-zero and every size has 24 bits. |
| ChunkFormat.RoundTripExact | tools/mk_chunk_dir.py:192-209 | Reading back header, image and padding gives the entries' types and payloads in order, if and only if the same holds. |
| ChunkDirectory.ChunkDirectory.AddEntry | tools/mk_chunk_dir.py:135-136 | One more entry at the end, an object of its own. |
| ChunkDirectory.Fill | tools/mk_chunk_dir.py:324-351 | The directory holds the texts given, each ended by a zero, then the loader, if any, then the modules in their order. |
| ChunkDirectory.ContentsAnnounced | tools/mk_chunk_dir.py:144-166 | A reader finds description 0xf5, date 0xf2, serial number 0xf1, status 0xf3, place 0xf4 and part number 0xf6 where given, then the loader 0x80, then modules 0x81; expressible if and only if each is shorter than 16 MB. |
| ChunkDirectory.ChunkDirectory.Calculate | tools/mk_chunk_dir.py:168-180 | The loop gives each entry its address and changes nothing else. |
| ChunkDirectory.ChunkDirectory.Render | tools/mk_chunk_dir.py:192-209 | The two passes yield the image that the laws above are about, or fail when an address exceeds 32 bits. |
| ChunkDirectory.HeaderReadsBack | tools/mk_chunk_dir.py:300-319 | The header announces a chunk directory and interrupt pointers, carries both numbers and the interrupt flag's mask and nothing else, fails exactly when a number exceeds 16 bits, and keeps the directory aligned. |
| ChunkDirectory.FinalPaddingIs | tools/mk_chunk_dir.py:359-363 | The padding is less than the rounding size and brings the length to a multiple of it. |
| ChunkDirectory.Output | tools/mk_chunk_dir.py:357-363 | The output file is header, image and the least padding, all zeros; it reads back as the entries under the exact condition. |
| ChunkDirectory.MakeChunkDirectory | tools/mk_chunk_dir.py:320-363 | The whole script: its output reads back as these chunks under that condition, behind the header and before the padding. |
| RomPipeline.ReadChunks | loader/loader.S:66-104 | Walking the directory byte by byte through read_byte gives what parsing the ROM image gives, when each call found the flag down; without a timeout the walk comes to its end. |
| RomPipeline.LoadModules | tools/mk_chunk_dir.py:147-148 | For any modules that fit 32 MB, such a walk through read_byte and page switches yields exactly the byte strings given to addRModule, if and only if each is shorter than 16 MB; a prompt podule never makes it time out. |
| RomPipeline.RoundTrip | tools/mk_chunk_dir.py:147-148 | Filled, written out with any padding, served by a podule that answers within the loader's timeout, in any interleaving, and walked: nothing times out, and the modules come back exactly, if and only if each is shorter than 16 MB. |

## Left out

- Poll timeouts and mid-frame resets in the pipe: the step machines have no timeout step and end-to-end claims are for one epoch; `ArcPipe` states exactly when each routine times out and what it leaves behind.
- USB disconnects outside `TxPipe` and `TxDrops`: the whole-pipe claims are for a link that stays up. On the receive side a disconnected link is one that has nothing to read.
- Prompt delivery: the safety claims hold whatever is delivered when; the progress and settling claims are that from every state there is a way on in which everything arrives, not that every way is one.
- RxSettling.PacketCanArrive: at most one packet under way, as with any client that waits for its replies; with two, `RxStranded.SecondPacketStrands` shows that it fails.
- Coupling of the podule's two halves: in the whole pipe its transmit and receive steps interleave freely, and the server may read at any time; the source allows fewer orders. `Podule.Podule.PipePoll` and `Server.Server.ServiceTurn` have the source's order.
- PipeRuns.CopiedFileIsRemoteFile: what RISC OS does with the attribute call; for a typed file it sets its own time stamp.
- CopyClient.CopyBlocks: the other end is a file that does not change, answering each request of at most 512 bytes inside it; what the server does with a larger one is not modelled. The transport under it is in `PipeSystem`.
- PipeRuns.WholePipeSafety: copies of empty files and of files beyond 2^31 - 512 bytes, whose requests go outside the packet contract (an empty reply, a request beyond the buffer); files that no command names may have any length.
- Block requests for more than 512 bytes or shorter than their structure: outside the contract, since the source would go past its buffer.
- HostChannels.BlockAnswer: padding bytes of reply structures are taken as zero; the words that a failed open leaves unset are arbitrary.
- Finding a file by name with glob, and its type and stamp from the name and the clock: the server's directory is a map from names to contents and attribute words.
- RomAccess.Firmware.SwitchPage: the last partial page of the ROM is followed in the window by whatever lies behind it in memory.
- GPIO timing, the bus interface, TinyUSB, terminal setup, RISC OS calls, command parsing, printing and LEDs: hardware and platform code without a property of its own.
- RomPipeline.ReadChunks: the operating system's walk is not part of the repository; this is the plainest reader of the format, using only read_byte.
