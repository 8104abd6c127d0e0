# Verified model of the vintage-kvm wire pipelines

The firmware sits between a modern controller and an old PC. It watches the PC's PS/2
keyboard wires, types a bootstrap program into it, and then serves it a program image over
the parallel port. This project models that logic in Dafny and proves what it promises.

**PS/2 wire pipeline.** `Framer` turns one (CLK, DATA) sample per microsecond into frames.
`Segmentation` says declaratively which frames a stream of clocking edges contains;
`FramerRefinement` proves that the framer emits exactly those. `Samples` says which raw samples
clock a bit and what every frame's glitch count and skew measure. `Packer` and `RoundTrip`
prove that packed words driven onto the wire come back, for every timing, and `ExactRoundTrip`
says exactly when. `Glitch` states what the glitch filter does and does not suppress, as a
simulation between two runs. `Classifier` decides the host class from the history of frames.
`Ring` is the DMA ring against a producer that writes between any two consumer steps.
`Oversampler` unpacks ring words, frames them, and keeps the device's own transmissions from
the classifier.

**Packet protocol.** `Gf2` is the algebra of shift registers over GF(2). `Crc16`, `Crc32` and
`CrcEngines` prove the bit loops against it. `Packet` is the codec, `ErrorDetection` what its
checksum catches, `Reassembler` the resynchronising stream parser. `BlockServer`, `Session` and
`Download` are the image server, the dispatcher and the whole download over a lossy channel.
`Nibble` is the reverse channel and `Negotiator` the IEEE 1284 handshake.

**Bootstrap printer.** `Injector` compiles a binary into a DEBUG script and scancodes;
`Scancode` has the tables and the host's keyboard, `Debug` as much of DOS and DEBUG as the
script needs, and `Bootstrap` proves that the host ends up running exactly the binary.

Objects whose methods change fields are classes (`Framer`, `Classifier`, `Dma`, `RingHandle`,
`Oversampler`, `PacketReassembler`, `BlockServer`, `SessionState`, `BootstrapInjector`, `Io`,
the CRC engines). Each method is proved against a function of the old state, and the theorems
are about that function. `Wrappers` and `Bytes` hold shared types and byte values.

## Findings

Where the code and its own comments differ, the model follows the code.

- The glitch filter is one-sided (crates/ps2-framer/src/framer.rs:5-6,153-168). A short high
  spike inside a low phase is ignored (`Glitch.GlitchTransparency`), but a short low pulse
  clocks a bit if and only if the high level before it was long enough
  (`Glitch.LowPulseClocks`).
- Durations are truncated to 32 bits, so after an idle high of 2^32 to 2^32 + 3 microseconds
  the start bit reads as a glitch; `RoundTrip.StartBitAfterIdle` gives the exact condition
  for one start bit and `ExactRoundTrip` for whole waves.
- The CLK-to-DATA skew is documented as signed (crates/ps2-framer/src/framer.rs:52-54) but is
  never negative on a 64-bit clock below 2^63 (`FramerRefinement.SkewNeverNegative`,
  `FramerRefinement.SkewSign`). It is the distance to the last change of DATA, except that a
  change in the very sample that gives up a frame is forgotten
  (crates/ps2-framer/src/framer.rs:126-135; `Samples.SkewIsLastChangeIff` is exact,
  `Samples.FlushForgetsData` such a run).
- A contradicting frame makes the classifier start a new candidate, not go back to unknown,
  and says `Reset` only when it was confirmed (crates/ps2-framer/src/classifier.rs:32-35
  against 104-115; `Classifier.ContradictionRestarts`).
- `CAP_REQ` leaves 0 as the expected sequence number, so a host that numbers consecutively is
  reported a gap right after its `CAP_REQ`, unless that was number 255 (`Session.GapIff`,
  `Session.ConsecutiveHostIsReported`).
- A `BLOCK_ACK` is reported as the last block of the run acknowledged so far, and as block 0
  when there is none yet (firmware/src/protocol/mod.rs:155-158;
  `Session.TelemetryIsHistory`).
- A ring with exactly capacity - 1 unread words has lost nothing yet, but the wake-up drops
  all that came before its resync except the last word (`Ring.RingHandle.Poll`).
- The debounced nibble receiver in dos/stage0/lpt_nibble.inc needs two reads of each pattern,
  where the documented receiver needs one (`Nibble.NibblesRecovered`, `Nibble.DebouncedIff`).

## Model

| member | source | states |
|---|---|---|
| Framer.Framer.Ingest | crates/ps2-framer/src/framer.rs:126-170 | one sample: timeout first (its edge swallowed), then edge detection, glitch filter and bit clock, with the source's narrowing casts; the whole new state and the frame |
| Framer.Framer.ClkFall | crates/ps2-framer/src/framer.rs:172-206 | an accepted falling edge starts a frame, adds a bit, or completes the eleventh |
| Framer.Framer.Timeout | crates/ps2-framer/src/framer.rs:208-219 | nine bits with start bit 1 are an XT frame, any other non-empty partial frame is Invalid |
| Framer.Framer.Built | crates/ps2-framer/src/framer.rs:221-248 | kind, data, parity and framing verdicts of a finished frame |
| Framer.Framer.ResetToIdle | crates/ps2-framer/src/framer.rs:112-120 | what a reset clears and what it keeps |
| Segmentation.SegmentationUnique | crates/ps2-framer/src/framer.rs:126-206 | grouping edges closer than 200 us and cutting at eleven leaves no choice: there is one segmentation |
| Segmentation.SegmentationCovers | crates/ps2-framer/src/framer.rs:126-206 | every accepted edge is in exactly one completed or in-flight frame, in order |
| Segmentation.CutIsSegmentation | crates/ps2-framer/src/framer.rs:126-206 | cutting greedily gives a segmentation, for every ordered edge sequence |
| FramerRefinement.StepRefines | crates/ps2-framer/src/framer.rs:126-264 | one sample moves the packed registers and the group of edges in flight together, and emits the frame the group stands for |
| FramerRefinement.FramerRefinesSegmentation | crates/ps2-framer/src/framer.rs:126-264 | over every paced sample stream the emitted frames are the completed groups of the segmentation, in order, in every bit, flag and period, and the registers hold the open group |
| FramerRefinement.ParityCheck | crates/ps2-framer/src/framer.rs:223-235 | the parity verdict is odd parity over the data and parity slots |
| FramerRefinement.PeriodsAddUp | crates/ps2-framer/src/framer.rs:184-206 | the recorded bit periods add up to last edge minus start, with no cast or index losing anything |
| FramerRefinement.SkewNeverNegative | crates/ps2-framer/src/framer.rs:172-183 | over every paced stream with timestamps below 2^63 the recorded skew is between 0 and 127 |
| FramerRefinement.SkewSign | crates/ps2-framer/src/framer.rs:172-183 | the skew of a start bit is negative exactly if DATA last changed 2^63 us or more before it |
| Samples.ClocksIff | crates/ps2-framer/src/framer.rs:126-170 | over every ordered stream, a sample clocks a bit if and only if CLK falls, no frame is given up there, and the last change of CLK (outside samples that gave up a frame) is at least 4 us back modulo 2^32 |
| Samples.FramesReportNoise | crates/ps2-framer/src/framer.rs:137-183 | over every paced stream each emitted frame started at a fall of CLK at its start time, its glitch count is min(255, changes of CLK after that sample and before its emission that came less than 4 us after the change before), and its skew is min(127, time since DATA last changed outside samples that gave up a frame), wrapping from 2^63 us on |
| Samples.SkewIsLastChangeIff | crates/ps2-framer/src/framer.rs:126-135 | the skew is the time since DATA last changed, up to 127, if and only if that change was not in a sample that gave up a frame, or both times show the same |
| Samples.FlushForgetsData | crates/ps2-framer/src/framer.rs:126-135 | a run in which DATA rises as a frame is given up and the next frame, 10 us later, reports a skew of 127 |
| Packer.AtWordDecodes | crates/ps2-framer/src/packer.rs:21-29 | the eleven low bits of an AT word are a frame with that byte, odd parity and good framing |
| Packer.XtWordDecodes | crates/ps2-framer/src/packer.rs:32-37 | the nine low bits of an XT word are a frame with that byte |
| Packer.WordsPaddedHigh | crates/ps2-framer/src/packer.rs:10-11 | every bit above the frame is 1 |
| RoundTrip.AtRoundTrip | crates/ps2-framer/tests/packer.rs:127-158 | from a new framer, every byte sequence driven as AT words with any low time of at least 1 us, any high time of at least 4 us, bit periods under 200 us and idle gaps that do not truncate to a glitch, DATA free away from the falling edges, comes out once each, in order, kind At, parity and framing good |
| RoundTrip.XtRoundTrip | crates/ps2-framer/tests/packer.rs:127-158 | the same for XT words when each frame's last falling edge is more than 200 us before the next falling edge |
| ExactRoundTrip.AtRoundTripIff | crates/ps2-framer/src/framer.rs:126-206 | an AT wave with legal bit timing comes back as exactly its bytes if and only if every gap before a start bit is at least 4 us modulo 2^32 |
| ExactRoundTrip.XtRoundTripIff | crates/ps2-framer/src/framer.rs:126-219 | the same for XT waves that leave each frame time to be flushed |
| ExactRoundTrip.FramesTakeClocks | crates/ps2-framer/src/framer.rs:172-248 | from power-up, n frames of one kind take at least n times as many clocking edges as such a frame has bits |
| RoundTrip.BitsRun | crates/ps2-framer/src/framer.rs:126-206 | driving bits with any legal timing appends exactly those bits to the group in flight, and the eleventh emits it |
| RoundTrip.StartBitAfterIdle | crates/ps2-framer/src/framer.rs:151-164 | after an idle high of h us the next falling edge starts a frame if and only if h mod 2^32 is at least 4 |
| Glitch.GlitchTransparency | crates/ps2-framer/src/framer.rs:137-170 | flipping low samples to high in runs of at most 3 us strictly inside low phases changes no emitted frame except its glitch count |
| Glitch.ActAlike | crates/ps2-framer/src/framer.rs:137-170 | on related clean and disturbed states both samples give up the frame, clock a bit, or do neither, together |
| Glitch.LowPulseClocks | crates/ps2-framer/src/framer.rs:153-168 | a low pulse of 1 to 3 us with no timeout due clocks a bit if and only if the high level before it, truncated to 32 bits, lasted at least 4 us; the eleventh bit completes the frame |
| Classifier.Classifier.IngestKbdFrame | crates/ps2-framer/src/classifier.rs:65-75 | keeps the state a function of everything told so far, and returns the event of that history |
| Classifier.Classifier.IngestAuxActivity | crates/ps2-framer/src/classifier.rs:80-86 | the same for AUX activity |
| Classifier.Classifier.SeeAt | crates/ps2-framer/src/classifier.rs:88-118 | the transition on a usable AT frame |
| Classifier.Classifier.SeeXt | crates/ps2-framer/src/classifier.rs:120-146 | the transition on a usable XT frame |
| Classifier.StateIsHistory | crates/ps2-framer/src/classifier.rs:65-146 | for every history: Unknown without usable frames; Candidate(k, r) or Confirmed(k) by the maximal trailing run of r usable frames of kind k; PS/2 exactly if AUX activity followed the run's third AT frame |
| Classifier.TrailingRun | crates/ps2-framer/src/classifier.rs:65-146 | once there is a usable frame there is exactly one such trailing run |
| Classifier.DetectionsBalanceResets | crates/ps2-framer/src/classifier.rs:65-146 | detections of XT or AT minus resets is 1 while confirmed and 0 otherwise, over every history |
| Classifier.ContradictionRestarts | crates/ps2-framer/src/classifier.rs:88-146 | after every history that ends in a run of one kind, a usable frame of the other kind makes it the first of a new candidate, with Reset exactly if the run had reached three |
| Classifier.EventIsHistory | crates/ps2-framer/src/classifier.rs:65-146 | every event from the history alone: the third frame of a run announces its class, the first AUX activity after the third frame of an AT run announces PS/2, a frame of another kind after a run of at least three announces a reset, nothing else announces anything |
| Classifier.EventsTellChanges | crates/ps2-framer/src/classifier.rs:65-146 | a class is announced exactly when it becomes the confirmed one, and a reset exactly when a confirmed class is given up |
| Ring.Dma.Transfer | firmware/src/ps2/ring_dma.rs:1-18 | a DMA write lands in its slot and the write address wraps, keeping the last lap readable |
| Ring.RingHandle.Head | firmware/src/ps2/ring_dma.rs:123-126 | the head index is the produced count modulo the capacity |
| Ring.RingHandle.Pending | firmware/src/ps2/ring_dma.rs:128-130 | pending is produced minus consumed modulo the capacity, and exact if and only if the producer is less than a lap ahead |
| Ring.RingHandle.Drain | firmware/src/ps2/ring_dma.rs:135-146 | with DMA writes between any two reads and at most capacity - 1 unread words, drain delivers exactly the next produced words, in order, as many as were pending (capped) |
| Ring.RingHandle.TryPop | firmware/src/lpt/ring_dma.rs:108-116 | nothing exactly when nothing is unread at the look at the head, otherwise the oldest unread word, with DMA writes between that look and the load |
| Ring.RingHandle.Resync | firmware/src/ps2/ring_dma.rs:148-151 | from any state, even overrun, the ring is a FIFO again with one unread word; before the first word the tail is left on a stale slot |
| Ring.RingHandle.Poll | firmware/src/ps2/oversampler.rs:194-206 | one wake-up, with DMA writes before each of its looks at the head and each read: below capacity - 1 unread words it delivers everything up to the drain's look, at capacity - 1 everything from the last word before the resync on |
| Ring.RingHandle.CatchUp | firmware/src/ps2/oversampler.rs:194-204 | looking and resyncing drops nothing below capacity - 1 unread words, and all but the last word before the resync at capacity - 1, whatever arrives between the looks |
| Ring.SlotDistance | firmware/src/ps2/ring_dma.rs:128-130 | the wrapped difference of slots is the difference of counts modulo the capacity |
| Oversampler.ClkToggledInWord | firmware/src/ps2/oversampler.rs:100-110 | true exactly when two neighbouring samples of the word differ in CLK |
| Oversampler.WalkUnpacks | firmware/src/ps2/oversampler.rs:215-222 | walking a word gives back the ten samples packed into it, earliest first |
| Oversampler.Oversampler.IngestSample | firmware/src/ps2/oversampler.rs:219-262 | one sample: self-transmit time, framer, counters, and forward or keep back |
| Oversampler.Oversampler.Word | firmware/src/ps2/oversampler.rs:206-263 | the ten samples of a word extend the walked history, all frame fields and counters stay a function of it, and the word counters advance |
| Oversampler.Oversampler.Wake | firmware/src/ps2/oversampler.rs:194-264 | a wake-up walks exactly the samples of the words the ring delivers, whatever arrives between its looks at the head and while it reads, and counts an overrun exactly at capacity - 1 unread words |
| Oversampler.LoopbackSuppression | firmware/src/ps2/oversampler.rs:169-262 | over every sample stream a frame is kept from the classifier exactly if the device drove CLK less than 1500 us before it was emitted; emission follows its last accepted edge by at most 200 us, so a frame whose last edge the device drove is always kept back |
| Oversampler.ErroredCounts | firmware/src/ps2/oversampler.rs:232-234 | the error count is the number of emitted frames with a bad parity or bad framing |
| Oversampler.KeptBackCounts | firmware/src/ps2/oversampler.rs:239-257 | the self-transmit count is the number of emitted frames taken for the device's own |
| Oversampler.ForwardedAt | firmware/src/ps2/oversampler.rs:257-262 | every other frame is offered to the classifier, in order, with none in between |
| Crc16.Compute | crates/protocol/src/packet/crc16.rs:13-26 | the byte and bit loops compute the checksum |
| Crc16.ChecksumIsRemainder | crates/protocol/src/packet/crc16.rs:8-26 | the checksum is the only remainder, by x^16 + x^12 + x^5 + 1 over GF(2), of the message with sixteen ones added to its leading bits |
| Crc16.CheckValue | crates/protocol/src/packet/crc16.rs:38-41 | the published check value 0x29B1 of the digits 1 to 9 |
| Crc16.ResidueIff | crates/protocol/src/packet/mod.rs:133-140 | two more bytes clear the register if and only if they are its big-endian value |
| Crc16.UpdateIsRun | crates/protocol/src/packet/crc16.rs:15-24 | the byte loop is the bit-serial shift register of that generator |
| Crc16.ResidueIsZero | crates/protocol/src/packet/mod.rs:133-140 | running on over the big-endian checksum leaves 0, for every message |
| Gf2.RemainderUnique | crates/protocol/src/packet/crc16.rs:13-26 | a remainder of lower degree than the generator is unique |
| Gf2.BurstDetected | crates/protocol/src/packet/crc16.rs:13-26 | no non-zero error confined to a register's width leaves the register zero |
| Crc32.Compute | crates/protocol/src/packet/crc32.rs:14-27 | the reflected loops compute the checksum |
| Crc32.ReflectedEqualsSniffer | firmware/src/crc_sniffer.rs:16-25 | the reflected checksum equals the MSB-first 0x04C11DB7 register, started from all ones, over bit-reversed bytes, reversed and inverted, for every message |
| Crc32.CheckValue | crates/protocol/src/packet/crc32.rs:39-42 | the published check value 0xCBF43926 of the digits 1 to 9 |
| CrcEngines.SoftwareCrc16Ccitt.Update | crates/protocol/src/crc.rs:55-68 | absorbs data after everything fed since the reset |
| CrcEngines.SoftwareCrc16Ccitt.Finalize | crates/protocol/src/crc.rs:70-72 | the one-shot checksum of everything fed, however it was chunked |
| CrcEngines.SoftwareCrc32Reflected.Update | crates/protocol/src/crc.rs:101-114 | absorbs data after everything fed since the reset |
| CrcEngines.SoftwareCrc32Reflected.Finalize | crates/protocol/src/crc.rs:116-118 | the one-shot checksum of everything fed, however it was chunked |
| Packet.Encode | crates/protocol/src/packet/mod.rs:153-183 | errors exactly for a payload over 248 bytes or a short buffer; otherwise writes the frame, and nothing past it |
| Packet.FrameLayout | crates/protocol/src/packet/mod.rs:162-182 | a frame byte by byte: 0x01, command, number, length in two bytes most significant first, payload, two bytes that leave no residue, 0x03 |
| Packet.DecodeErrors | crates/protocol/src/packet/mod.rs:112-140 | for every buffer and every error, exactly when decode gives that error: under 8 bytes; first byte not 0x01; length over 248; length and size disagree; last byte not 0x03; otherwise a non-zero residue |
| Bytes.BigEndian16Spells | crates/protocol/src/packet/mod.rs:165-167 | the two bytes spell the number, most significant bit first |
| Packet.DecodeExact | crates/protocol/src/packet/mod.rs:112-149 | a buffer decodes to a packet if and only if it is that packet's encoding |
| Packet.DecodeInjective | crates/protocol/src/packet/mod.rs:112-149 | two buffers that decode to the same packet are the same |
| ErrorDetection.CorruptionRejected | crates/protocol/src/packet/mod.rs:112-149 | no error within 16 consecutive bits and no odd number of flipped bits, anywhere in a frame, gets past decode |
| ErrorDetection.UndetectedBodyCancels | crates/protocol/src/packet/mod.rs:133-140 | an error that turns one frame into another clears the zero-started register, by linearity |
| Reassembler.PacketReassembler.NextPacket | firmware/src/transport/packet_stream.rs:35-89 | the returned packet, the events and the bytes consumed are those of the stream's items |
| Reassembler.PacketReassembler.NextItem | firmware/src/transport/packet_stream.rs:40-87 | one turn of the loop consumes one item: noise byte, oversized header, bad frame or packet |
| Reassembler.PullsEnumerateItems | firmware/src/transport/packet_stream.rs:35-89 | calling next_packet again and again enumerates all items, packets and events in order |
| Reassembler.BytesConserved | firmware/src/transport/packet_stream.rs:35-89 | the bytes of all items and of the unfinished rest are the input |
| Reassembler.ItemsAreSound | firmware/src/transport/packet_stream.rs:40-87 | every packet is the encoding of a contiguous slice of the input; what is dropped is dropped for the reason given, exactly: a byte other than 0x01, a header announcing over 248 bytes, a complete frame not ending in 0x03, a complete frame with a residue; the generic reason never occurs |
| Reassembler.StreamConcat | firmware/src/transport/packet_stream.rs:35-89 | more input never changes what was already recognised |
| Reassembler.CleanDelivery | firmware/src/transport/packet_stream.rs:35-89 | frames separated by SOH-free noise all arrive in order with exactly one PreSohByte event per noise byte |
| Reassembler.ResyncAfterQuiet | firmware/src/transport/packet_stream.rs:35-89 | after arbitrary garbage and 255 SOH-free bytes everything is read as if nothing had come before |
| Reassembler.FramesAfterQuiet | firmware/src/transport/packet_stream.rs:35-89 | every frame after that is delivered |
| Reassembler.QuietBoundIsTight | firmware/src/transport/packet_stream.rs:56-68 | 254 quiet bytes are not enough: a lone SOH can swallow the next frame's SOH |
| BlockServer.BlockExtendsPrefix | crates/protocol/src/block_source.rs:49-57 | a block is served exactly if the image reaches it, has the announced length, and extends the prefix before it |
| BlockServer.AllBlocks | crates/protocol/src/block_source.rs:49-57 | the blocks make up the image, none missing and none past the end |
| BlockServer.ParseExact | crates/protocol/src/block_server.rs:55-64 | a block number is parsed from exactly the payload that encodes it, the four bytes that spell it most significant first |
| BlockServer.BigEndian32Spells | crates/protocol/src/cap.rs:33-53 | the four bytes spell the number, most significant bit first |
| BlockServer.BlockServer.BuildRecvBlock | crates/protocol/src/block_server.rs:69-86 | the echoed number, the count and the bytes, or BlockOutOfRange with the buffer untouched |
| BlockServer.BlockServer.HandleAck | crates/protocol/src/block_server.rs:89-95 | only the expected number advances the counter, which saturates |
| BlockServer.BuildCapRspPayload | crates/protocol/src/cap.rs:33-53 | the 36 bytes field by field, and nothing past them |
| BlockServer.CapAnnounces | crates/protocol/src/cap.rs:33-53 | a host reads back version 1.0, the mode, the image size and its checksum, both most significant byte first, and zeros everywhere else |
| Session.SessionState.HandlePacket | firmware/src/protocol/mod.rs:80-106 | the new session state, the outcome and the telemetry of one packet |
| Session.SessionState.HandleCapReq | firmware/src/protocol/mod.rs:108-116 | resets the session and announces the image as reply number 0 |
| Session.SessionState.HandleSendBlock | firmware/src/protocol/mod.rs:129-148 | serves the block, or ignores the request without using up a number |
| Session.BlockRequestAnswered | firmware/src/protocol/mod.rs:129-148 | a SEND_BLOCK is answered exactly if it names a block of the image, with that block's number, length and bytes |
| Session.PingEchoed | firmware/src/protocol/mod.rs:124-127 | after every history a PING of any legal size is answered by a PONG with its payload, numbered by the replies since the last CAP_REQ |
| Session.RepliesFit | firmware/src/protocol/mod.rs:168-173 | every reply fits a packet, so exactly CAP_REQ, PING and servable SEND_BLOCK are answered |
| Session.OutcomeTable | firmware/src/protocol/mod.rs:80-173 | by command byte: which packets are answered and with what command, which are taken in silence, and that all others are ignored |
| Session.RepliesNumbered | firmware/src/protocol/mod.rs:50-173 | over every history the replies since the last CAP_REQ are numbered 0, 1, 2, ... mod 256, none skipped |
| Session.ExpectedBlockCounts | crates/protocol/src/block_server.rs:89-95 | over every history expected_block is the largest b up to 65535 such that 0 .. b-1 is a subsequence of the numbers acknowledged since the last CAP_REQ, and exactly the b up to it are |
| Session.GapIff | firmware/src/protocol/mod.rs:85-92 | a sequence gap is reported exactly if the number is not 0 after a CAP_REQ, or does not continue the numbering otherwise |
| Session.TelemetryIsHistory | firmware/src/protocol/mod.rs:80-160 | the events of every packet from the history alone: a gap with the expected and the received number, the last block of the unbroken run acknowledged since the last CAP_REQ, or the unknown command, in that order |
| Session.ConsecutiveHostIsReported | firmware/src/protocol/mod.rs:85-116 | a host numbering from 0 with CAP_REQ first is reported a gap on its next packet |
| Session.CapAckedIff | firmware/src/protocol/mod.rs:118-122 | cap_acked holds exactly if a CAP_ACK followed the last CAP_REQ |
| Download.DecodedWasSent | crates/protocol/src/packet/mod.rs:112-149 | what decodes at either end is a frame that was sent |
| Download.InvStep | firmware/src/protocol/mod.rs:80-173 | every step of host, device or channel keeps the invariant |
| Download.RunSpends | docs/stage1_design.md:290-295 | over every run the attempts a host has left at a block are those it started with less the failed ones |
| Download.DownloadSafety | docs/stage1_design.md:285-309 | in every reachable state the host holds a whole-block prefix of the image and exactly its unspent attempts at the current block; when done it holds the image, whose CRC-32 is the one announced; it gives up only on a size it refuses or when all attempts at one block of the image are spent |
| Download.AcknowledgedIsTaken | docs/stage1_design.md:285-301 | in every reachable state the device's count of acknowledged blocks is at most the number of blocks the host has taken |
| Download.NeverStuck | docs/stage1_design.md:285-301 | from every reachable state in which the host has not given up, whatever the channel did, the download of an acceptable image can still be completed |
| Nibble.SendBytes | firmware/src/lpt/pio_nibble_out.rs:217-232 | the batch holds the packed word of every byte, in order |
| Nibble.BytePatterns | firmware/src/lpt/pio_nibble_out.rs:187-202 | a byte's word drives its low nibble with phase high, then its high nibble with phase low |
| Nibble.NibbleReads | firmware/src/lpt/pio_nibble_out.rs:187-193 | the status register shows the nibble in bits 3 to 6 and the phase in bit 7, inverted or not |
| Nibble.NibblesRecovered | docs/stage0_design.md:196-216 | for every byte sequence and polling schedule that reads each pattern at least once, the receiver with a persistent phase gets exactly the nibbles, and the phase is at rest at the end of each batch; so does the debounced receiver if each pattern is read twice |
| Nibble.DebouncedIff | dos/stage0/lpt_nibble.inc:134-200 | with the debounce, and each pattern read at least once, the bytes are recovered if and only if every pattern is read at least twice |
| Nibble.DebouncedCount | dos/stage0/lpt_nibble.inc:134-200 | the debounced receiver never takes more nibbles than patterns were driven, and fewer if any was read only once |
| Nibble.PacketCrosses | firmware/src/lpt/pio_nibble_out.rs:210-232 | every packet's frame fits one batch and decodes at the host to the packet |
| Nibble.OneReadIsLost | dos/stage0/lpt_nibble.inc:134-200 | wherever it occurs, a pattern read only once is lost to the debounced receiver together with the next one, and neither is lost to the plain receiver |
| Negotiator.RequestTable | firmware/src/lpt/negotiator.rs:107-119 | with bit 2 left aside, 0x00 asks for nibble mode, 0x01 for byte mode, 0x10 and 0x30 for ECP, 0x40 for EPP, and nothing else for anything |
| Negotiator.SupportedRequests | firmware/src/lpt/negotiator.rs:107-119 | exactly ten request values are supported, and the device-ID flag does not change the mode |
| Negotiator.Negotiator.DetectStart | firmware/src/lpt/negotiator.rs:183-189 | the data byte exactly if nSelectIn reads high and then nAutoFd low, the lines being read one after the other |
| Negotiator.Negotiator.Await | firmware/src/lpt/negotiator.rs:234-239 | a polling loop ends at the first poll that sees the level, or when the clock read after a miss is more than 100 ms past the start; time may pass between any two actions, and the distance to the deadline is its measure |
| Negotiator.Negotiator.Handshake | firmware/src/lpt/negotiator.rs:220-262 | for every behaviour of the lines and every lateness of the timer: the complete wire log and the verdict that goes with it |
| Negotiator.VerdictMeansCompleted | firmware/src/lpt/negotiator.rs:220-262 | unless it timed out: ready status, nStrobe seen low, then high, final status with Select equal to support, nAutoFd seen high, and no other status driven; Ok with exactly the mode the request value asks for, by value, otherwise unsupported |
| Negotiator.TimeoutIff | firmware/src/lpt/negotiator.rs:220-262 | the verdict is a timeout exactly unless the last thing seen is nAutoFd high |
| Negotiator.TimeoutMeansStalled | firmware/src/lpt/negotiator.rs:234-259 | a timeout means that the wait it ended in saw only the wrong level from its beginning until more than 100 ms later |
| Negotiator.Negotiator.HandleTerminate | firmware/src/lpt/negotiator.rs:268-277 | nFault low, then at least 2 ms later high again |
| Scancode.Set2Exact | firmware/src/ps2/scancode.rs:26-97 | every Set 2 code of the table is the make code of exactly that key |
| Scancode.Set1Exact | firmware/src/ps2/scancode.rs:32-162 | every Set 1 code of the table is the make code of exactly that key, with the break bit clear |
| Scancode.SameCharacters | firmware/src/ps2/scancode.rs:36-164 | both tables cover the same characters |
| Injector.BootstrapInjector.TypeAsciiAt | firmware/src/ps2/injector.rs:169-178 | make, break prefix and make code of every character that has one, in order |
| Injector.BootstrapInjector.TypeAsciiXt | firmware/src/ps2/injector.rs:183-192 | make and break code of every character that has one, in order |
| Injector.BootstrapInjector.BuildLine | firmware/src/ps2/injector.rs:217-223 | the 64-byte string holds the whole `e` command |
| Injector.BootstrapInjector.TypeDebugStage0 | firmware/src/ps2/injector.rs:203-233 | exactly the script of the binary is typed, with the framing and scancode set of the host class |
| Injector.LineFits | firmware/src/ps2/injector.rs:214-223 | no line is longer than 54 characters and the return key |
| Bootstrap.HeardIsTyped | firmware/src/ps2/injector.rs:146-192 | no character is skipped, doubled or changed between typing and the host's keyboard |
| Bootstrap.NothingHeld | firmware/src/ps2/injector.rs:146-192 | every key pressed is let go: none is down once the text has been typed |
| Bootstrap.ScriptLength | firmware/src/ps2/injector.rs:203-233 | the script has the launch line, one `e` line for every sixteen bytes begun, and the `g` line |
| Bootstrap.EnterExecutes | firmware/src/ps2/injector.rs:216-223 | an `e` line stores exactly its chunk at its address |
| Bootstrap.BootstrapRuns | firmware/src/ps2/injector.rs:203-233 | for every host class, prior memory and binary that fits above 0x100, the host ends up running at 0x100 with exactly the binary there, nothing else changed and no key held down |
| Debug.HexReads | firmware/src/ps2/injector.rs:217-220 | the hexadecimal text of a number reads back as the number |

## Left out

- Framer.Framer.Ingest: the signed difference of timestamps from 2^63 up wraps as in a release build; a build with overflow checks would stop there.
- FramerRefinement.FramerRefinesSegmentation: timestamps do not run backwards and samples are less than 2^32 - 200 us apart, because the 32-bit casts lose longer gaps; skew and glitch counts are not part of a segmentation but of Samples.FramesReportNoise.
- ExactRoundTrip.XtRoundTripIff: waves that do not leave an XT frame more than the idle timeout before the next falling edge are outside what the framer promises and are not decided.
- Ring.RingHandle.Poll: what an already overrun ring delivers before its resync is not characterised; Ring.RingHandle.Pending says exactly when the ring cannot notice.
- Download.DownloadSafety: frames arrive whole; the host is the stop-and-wait loop of the design document with any number of attempts per block (3 in dos/stage1/stage1.asm:249), where a time-out or anything but the wanted block spends one; it may repeat its CAP_REQ without limit, where the assembly asks once; errors outside the classes of ErrorDetection.CorruptionRejected are not delivered.
- Bootstrap.BootstrapRuns: DEBUG is modelled for the `e` and `g` forms the script uses; addresses wrap as in a release build, so a binary of exactly 0xFF00 bytes is covered although an overflow-checking build would stop after its last chunk.
- Negotiator.Negotiator.Await: the three polling loops of the handshake are one method.
- Injector.BootstrapInjector.TypeDebugStage0: waits between keystrokes and lines carry no state; formatting is appended piece by piece and refused when the string is full.
- Reassembler.PacketReassembler.NextPacket: the loop body is NextItem; an exhausted finite input stands for a pending receive.
- The scancode tables are functions; the array assignments that build them at compile time are not repeated.
- `Absorb` in Crc16 and Crc32 is the one loop that the one-shot function and the engine both write out.
- `wait_for_start` in the negotiator polls forever by design and returns what DetectStart sees.
- Telemetry is a returned sequence of events; log formatting, counters' memory ordering and channels that drop a full queue's frame are not modelled.
- PIO programs, shift registers and the transmit waveform, DMA and sniffer registers, pin multiplexing and clock dividers: foreign hardware.
- Embassy tasks and timers, the phy multiplexer, USB, lifecycle and LED code, and the host command-line tools: no state that the properties above depend on.
- DOS assembly beyond the nibble receiver, and the later-stage designs, are not part of this model.
