# Verified model of the Binary Data Separation Protocol

BDSP sends packets over a byte channel. A packet gets a header, a size, its data and an optional checksum; the
result is framed by one of four strategies (COBS, COBS/GSE, COBS/ZPE, byte stuffing) so that a delimiter byte
occurs only at the end of a frame. The receive side undoes this byte by byte, inside callbacks, and must survive
any garbage on the line.

This project models that stack in Dafny and proves what it is for:

- **Receiving.** `Pipeline.ReceivePipeline` is the read strategy, the stream reader and the receiver as one
  object, with every callback as a direct call in the order of the C++ code, including the reset of the strategy from
  within its own `read` and the eight-bit countdown that then wraps to 255. After every byte of every stream its
  log equals `Trace.TraceOf`, a whole-stream account that cuts at delimiters, decodes each body and parses it as
  a whole. One delimiter brings the object back to its first state from wherever it was. The invariant also
  accounts for every packet buffer, and so it does when the receiver is called directly, with any bytes, statuses
  and resets in any order.
- **Sending.** `Sending.StreamWriter` and `Sending.Transmitter` are the write strategies and the packet sender.
  A finished frame equals `Strategies.Frame` of the data written.
- **End to end.** Packets sent are the packets delivered, in order, once each, with no error event, also after
  arbitrary garbage and one delimiter.
- **COBS.** Frames are lists of blocks with a meaning. Proved about them: the streaming invariant, the round
  trip for the three variants, the converse for plain COBS, exact and worst-case lengths, that replacing runs
  never costs space, and agreement with the whole-buffer reference coder of the test suite.
- **CRC-8.** The byte loop is polynomial division over GF(2), and bursts of up to eight bits are never delivered.

## How to read it

`Bytes`, `Arithmetic` are groundwork. `CobsConfig`, `CobsBlocks`, `CobsEncoder`, `CobsReader`, `ByteStuffing`,
`RunReplacement`, `Reading`, `Strategies`, `RoundTrip`, `AcceptedBodies` treat the strategies as functions; `Reference` the test suite's coder;
`Framing` the cutting of a stream; `Packets` and `Crc8` the packet layer; `Trace`, `Notices` the whole-stream
accounts; `TraceSteps`, `Receiving`, `ReaderStates` their growth by one byte; `ReceiverCalls` the account of a
receiver that is called directly; `Pipeline`, `Sending`, `Loopback` the objects.

Conventions. A byte is an integer below 256 and every wrap is written out. Handlers become logs: `log` holds the
calls of the packet and error handlers, `notices` the calls of the stream reader's data handler, `out` those of
the write handler. `Trace.Setup` holds what surrounds a receiver: strategy, largest size, checksum function,
whether a packet handler is set, and for each frame whether the allocation succeeds and whether the handler keeps
the buffer; the theorems hold for every choice. The three COBS classes are one `kind` in the configuration.
`D` below is the depth and `k` the size of a replaced run.

Two properties hold only with a condition, which is proved exact. Writing again what a plain COBS body delivered
gives the body back if and only if its last block is short (`RoundTrip.EncodeUndoesDecode` gives the result in
both cases). The reference decoder always takes its last byte back, so it agrees with the streaming reader if and
only if the last block is short (`Reference.CobsDecode`); frames that a writer made always end that way.
`RoundTrip.WhereRewritingGrows` and `Reference.LosesLastByte` show inputs on which the condition fails.
`send_data` sends all its data if and only if the size is below 65536.

## Model
| member | source | states |
|---|---|---|
| Pipeline.ReceivePipeline.ReadByte | src/streams/reader.cpp:32-41 | after any byte in any reachable state, everything the application has been told equals the frame-by-frame account of all bytes read, the strategy stands where the stream has left it, and the status returned is the one the stream determines, also while the delimiter is awaited; a delimiter restores the first state |
| Pipeline.ReceivePipeline.ReadBuffer | src/streams/reader.cpp:43-53 | reading a buffer is reading its bytes; the status is an error exactly when the strategy refused one of them in the state it had reached |
| Pipeline.ReceivePipeline.HandleData | src/streams/reader.cpp:6-14 | while waiting nothing changes; otherwise the byte is told, and either the frame so far still parses or its error is logged and everything is reset |
| Pipeline.ReceivePipeline.HandleError | src/streams/reader.cpp:6-14 | an error is told once, and never while waiting for the delimiter |
| Pipeline.ReceivePipeline.HandleDelimiter | src/streams/reader.cpp:6-14 | a delimiter always gets through, also while waiting |
| Pipeline.ReceivePipeline.ExecDelimiter | src/strategies/cobs/read.cpp:7-13 | a delimiter in the middle of a block, or with a run owed, is an error and then a delimiter; the strategy is reset |
| Pipeline.ReceivePipeline.ExecNewOffset | src/strategies/cobs/read.cpp:94-113 | what the last block owed (nothing, a delimiter byte, a run) is told before the new block begins, even if telling it resets everything |
| Pipeline.ReceivePipeline.RepeatRun | src/strategies/cobs/read.cpp:102-105 | the loop tells exactly k run bytes, or fewer if one of them completes a mistake |
| Pipeline.ReceivePipeline.ReadCobs | src/strategies/cobs/read.cpp:47-64 | the reaction of the COBS readers to one byte, its status and next state in every case, with the wrap of the countdown when the receiver resets it in the middle |
| Pipeline.ReceivePipeline.ReadStuffing | src/strategies/byte_stuffing/read.cpp:22-42 | the reaction of the byte stuffing reader to one byte, its status and next state in every case |
| Pipeline.ReceivePipeline.ParseData | src/receiver.cpp:29-94 | whatever the stream reader does, the state machine raises an error exactly when the bytes heard so far are wrong for the whole-frame parser, and that error |
| Pipeline.ReceivePipeline.ParsePayload | src/receiver.cpp:39-44 | the in-place store stays below the packet size and keeps buffer and bytes read equal |
| Pipeline.ReceivePipeline.AcceptSize | src/receiver.cpp:85-93 | size check, then allocation, with their errors |
| Pipeline.ReceivePipeline.ParseDelimiter | src/receiver.cpp:33-37 | a delimiter delivers the packet exactly when the machine waits for the end and a handler is set; otherwise it logs the error; the buffer is freed or left to the handler |
| Pipeline.ReceivePipeline.CauseError | src/receiver.cpp:14-20 | the error is reported, then receiver, stream reader and strategy are reset and the delimiter is awaited |
| Pipeline.ReceivePipeline.Reset | src/receiver.cpp:96-105 | no buffer stays live, and allocations equal releases plus buffers kept |
| Pipeline.ReceivePipeline.ValidMeans | src/receiver.cpp:9-105 | between reads: the log is the account of the stream, the buffers kept are those of the delivered packets the handler keeps, notices are orderly, a buffer is live exactly while data, checksum or end are awaited, and the delimiter is awaited exactly when the current frame has a mistake |
| Pipeline.ReceivePipeline.Obey | src/receiver.cpp:29-105 | after any call of parse_packet_byte (four statuses, allocation and need_clear chosen per call) or reset, log, buffer counts and the waiting flag are those of the whole-packet account |
| Pipeline.ReceivePipeline.ObeyAll | src/receiver.cpp:9-105 | the same for any sequence of calls, from wherever reading or earlier calls have left the receiver; a buffer is live exactly while the size of the packet being heard is known |
| Pipeline.ReceivePipeline.ReachableIsSound | src/receiver.cpp:96-105 | direct calls may begin in every state that reading can reach |
| ReceiverCalls.AlwaysSettled | src/receiver.cpp:9-105 | for all call sequences: allocations = releases + buffers kept + (1 if live), and what has been heard is free of mistakes |
| Loopback.CallDirectly | tests/BDSP/receiver_tests.cpp:41-47 | a receiver driven by any calls reports what the whole-packet account says, and its buffer counts balance |
| ReaderStates.FineState | src/strategies/cobs/read.cpp:47-64 | in a frame without a mistake the strategy is where the bytes of that frame alone put it |
| ReaderStates.FineStatus | src/streams/reader.cpp:32-41 | in such a frame a read returns an error exactly when its byte is the first that the frame cannot contain |
| ReaderStates.CountdownWraps | src/strategies/cobs/read.cpp:52-64 | a mistake that the receiver finds in a payload byte leaves the countdown at 255 |
| ReaderStates.BlockBeginsRegardless | src/strategies/cobs/read.cpp:102-111 | if telling what the last block owed resets everything, the new block begins all the same |
| ReaderStates.ErrorStartsOver | src/strategies/cobs/read.cpp:56-60 | after an error the strategy starts over, also while the delimiter is awaited |
| Receiving.HoldsMeans | src/receiver.cpp:38-84 | a machine that found no error agrees with the whole-frame parser; it waits for the end exactly on a whole packet, which is the buffer |
| Receiving.TakeSize | src/receiver.cpp:75-93 | the last size byte: zero or too large, allocation failure, or a buffer of that size |
| Receiving.TakeData | src/receiver.cpp:39-44 | storing one more byte keeps buffer and stream together and ends in the right state |
| Receiving.TakeChecksum | src/receiver.cpp:56-61 | a checksum byte is accepted exactly when it is the checksum of header, size and data |
| Trace.ExactlyTheGoodPackets | src/receiver.cpp:62-74 | for every stream, delivered packets are those of the terminated frames that decode without error and parse exactly, in order, once each |
| Trace.EndToEnd | src/transmitter.cpp:20-54 | any list of sendable packets, through any strategy under any accepted configuration, is delivered exactly, with no error event |
| Trace.Resynchronises | src/receiver.cpp:96-105 | after any delimiter the rest of the stream is received as by a fresh receiver, whatever came before |
| Trace.RecoversFromGarbage | src/streams/reader.cpp:6-14 | packets sent after arbitrary garbage and one delimiter all arrive |
| Trace.BurstNeverDelivered | src/receiver.cpp:56-61 | for every odd polynomial, strategy and stream before it: a burst of at most eight bits in data and checksum of the bytes sent for a checked packet adds a checksum error, the error at the delimiter, and no delivery |
| Trace.ChecksumCoversAll | src/mixins.cpp:14-27 | the chained checksum calls equal one CRC over header, low size byte, high size byte and data, started at 255 |
| Trace.DeliveredByFrame | src/receiver.cpp:29-94 | a frame delivers its packet or nothing, and nothing is delivered before the delimiter |
| Trace.NothingGoesUnreported | src/receiver.cpp:29-94 | a terminated frame delivers its packet if and only if it carries the bytes of that packet, the buffer can be had and a handler is set; every other frame is reported with one or two errors and delivers nothing |
| Trace.ReportedErrors | src/receiver.cpp:29-94 | which errors a frame is reported with, and in which order |
| Loopback.SendAndReceive | tests/BDSP/integration_tests.cpp:11-46 | whatever is asked of the transmitter, the packets it sends are delivered exactly, however the line cuts the stream, with a maximum packet size on each side |
| Loopback.SendAll | src/transmitter.cpp:20-54 | for any requests with any ids, sizes and checksum choices, the line holds the frames of exactly those with id and size in range |
| Loopback.ReceiveAll | src/streams/reader.cpp:43-53 | a receiver fed in pieces of any size logs the account of the whole stream |
| Notices.AlwaysOrderly | src/streams/reader.cpp:6-14 | for every stream and strategy the data handler sees data, at most one error, then a delimiter, again and again |
| Notices.FrameTold | tests/BDSP/streams/COBS/integration_tests.cpp:13-41 | reading back a frame tells its data and one delimiter, and no error |
| Notices.BrokenExactly | src/strategies/cobs/read.cpp:86-92 | a terminated frame is told an error if and only if it carries nothing |
| Sending.StreamWriter.Write | src/strategies/cobs/write.cpp:77-124 | the object stays the pure writer of all bytes written, buffer, counter and output included |
| Sending.StreamWriter.Finish | src/strategies/cobs/write.cpp:44-47 | completes the output by exactly the frame of the data written |
| Sending.StreamWriter.EncodeByte | src/strategies/cobs/write.cpp:6-14 | one byte encoded in place |
| Sending.StreamWriter.WriteBuffer | src/strategies/cobs/write.cpp:28-34 | emits the swapped offset and the buffered bytes, and empties the buffer |
| Sending.StreamWriter.ResetCounter | src/strategies/cobs/write.cpp:88-93 | the counted run bytes are encoded after all |
| Sending.StreamWriter.WriteReplacing | src/strategies/cobs/write.cpp:111-124 | run bytes are counted where a run could be replaced, and the k-th replaces them |
| Sending.StreamWriter.EmitStuffed | src/strategies/byte_stuffing/write.cpp:27-33 | an escaped pair or the byte itself |
| Sending.Transmitter.SendPacket | src/transmitter.cpp:20-54 | the packet is sent if and only if a writer is set, the size is in 1..maximum and the id at most 31, each error status by its condition; one whole frame of the packet's bytes goes out, or nothing |
| Sending.Transmitter.SendData | src/transmitter.cpp:9-18 | the size is cut to sixteen bits; all data are sent if and only if the size is below 65536; a refused send writes nothing |
| Sending.ComputeChecksum | src/mixins.cpp:14-27 | the step-by-step computation gives the chained checksum; with a CRC, the CRC of header, size bytes and data in one piece |
| CobsEncoder.NothingLost | src/strategies/cobs/write.cpp:6-14 | streaming invariant: blocks emitted, buffer and counted bytes together stand for exactly the data written; 1 <= position < D; counted < k; position + D fits in a byte while counting |
| RoundTrip.NothingLostOnTheLine | src/strategies/cobs/write.cpp:6-34 | the data written are what the bytes emitted read back as, what their last block owes, the buffer, and the counted run bytes |
| CobsEncoder.FrameMeans | src/strategies/cobs/write.cpp:95-100 | a frame stands for the data and the separator that its delimiter swallows |
| CobsEncoder.BodyLength | tests/BDSP/strategies/cobs/redundancy_test.cpp:33-109 | exact length n + 1 + F - S(k-1) of a body with F full blocks and S replaced runs, and F(D-1) + Sk <= n |
| CobsEncoder.WorstCase | tests/BDSP/strategies/cobs/redundancy_test.cpp:10-29 | no frame is longer than n + floor(n/(D-1)) + 2 |
| CobsEncoder.WorstCaseMet | tests/BDSP/strategies/cobs/redundancy_test.cpp:33-57 | plain COBS meets that bound exactly on data without the delimiter |
| CobsEncoder.NeverAhead | src/strategies/cobs/write.cpp:111-124 | the replacing writer never has more full blocks than the plain one, nor as many with a fuller buffer |
| CobsEncoder.ReplacementNeverCosts | src/strategies/cobs/write.cpp:111-124 | a frame is shorter than the plain frame of the same data by at least S(k-1) |
| CobsEncoder.GseReplaces | src/strategies/cobs/write.cpp:102-124 | COBS/GSE replaces floor(r/k) runs in every maximal stretch of r run bytes |
| RunReplacement.NoRunIsLeft | src/strategies/cobs/write.cpp:111-124 | GSE and ZPE: no block of a frame holds k run bytes in a row from an index i with i + 1 + D <= 255 |
| RunReplacement.RunReplaced | src/strategies/cobs/write.cpp:111-119 | GSE and ZPE: k run bytes written with nothing pending and position + D <= 255 emit exactly the buffered block, ending in a run |
| RunReplacement.RunPending | src/strategies/cobs/write.cpp:111-119 | fewer than k run bytes stay pending there and change nothing else |
| RunReplacement.PairOfZeros | tests/BDSP/strategies/cobs/zpe_tests.cpp:79-82 | the default ZPE writer sends two zeros as 225, 1 |
| CobsBlocks.WireLength | src/strategies/cobs/write.cpp:28-34 | a full block costs a byte, a replaced run saves all but one, a separator is free |
| CobsBlocks.Wire | src/strategies/cobs/write.cpp:28-34 | the delimiter never occurs in the bytes of blocks |
| CobsConfig.SwapRoundTrip | src/strategies/cobs/read.cpp:27-29 | exchanging delimiter and zero in code bytes is undone by the reader, both ways, leaves every other byte alone, and no code read is zero |
| CobsConfig.Swap | src/strategies/cobs/write.cpp:29-29 | a code byte is never the delimiter |
| CobsConfig.AcceptedExactly | src/strategies/cobs/mixins.cpp:6-54 | plain: run size 0 and depth at least 16; GSE: run size at least 2, depth at least 16 and twice the depth at most 255; ZPE: run size at least 2 and depth 224; nothing else |
| CobsConfig.RefusedExactly | src/strategies/cobs/mixins.cpp:6-54 | each error status by the configurations that get it |
| CobsConfig.DefaultsAccepted | src/strategies/cobs/mixins.cpp:20-65 | the defaults pass their checks, with the largest depth and the smallest run size that do |
| CobsReader.RejectedExactly | src/strategies/cobs/read.cpp:15-25 | between blocks a byte is an error if and only if the offset it stands for exceeds the depth (plain) or twice the depth (GSE, ZPE); elsewhere none is |
| AcceptedBodies.AcceptedExactly | src/strategies/cobs/read.cpp:86-113 | all kinds: a body is accepted if and only if it spells a list of blocks with no run owed, and delivers what they stand for but what the last owes |
| AcceptedBodies.CompleteExactly | src/strategies/cobs/read.cpp:47-118 | all four strategies: a body is read to its end without an error with output d if and only if it carries d |
| RoundTrip.BlocksRead | src/strategies/cobs/read.cpp:47-118 | the blocks of a frame are read back as the blocks they were, with what the last one owes kept back |
| RoundTrip.ReadsBack | src/strategies/cobs/read.cpp:47-118 | for every accepted configuration of every strategy, reading a body gives the data, no error, and a reader ready for the delimiter |
| RoundTrip.DecodeUndoesEncode | src/strategies/cobs/write.cpp:44-47 | whole-body decoding undoes encoding for the four strategies |
| RoundTrip.EncodeUndoesDecode | src/strategies/cobs/read.cpp:15-25 | plain COBS: encoding what an accepted body delivers gives the body, plus the code of an empty block exactly when the body is empty or ends with a full block |
| RoundTrip.WhereRewritingGrows | src/strategies/cobs/read.cpp:15-25 | the empty body and a single full block are accepted, and writing them again adds the code of an empty block |
| RoundTrip.StuffUndoesUnstuff | src/strategies/byte_stuffing/read.cpp:22-42 | byte stuffing: encoding what an accepted body delivers gives the body |
| RoundTrip.PrefixSafety | src/strategies/cobs/read.cpp:47-64 | part of a frame delivers an error-free prefix of the data, and more of it no less |
| RoundTrip.CountdownNeverWraps | src/strategies/cobs/read.cpp:52-62 | without a reset from outside every decrement of the countdown starts above zero |
| Strategies.ReadIsDecode | src/strategies/cobs/read.cpp:86-118 | for any body, byte-by-byte reading and block-by-block decoding deliver the same and end the same way |
| Strategies.EndsAgree | src/strategies/cobs/read.cpp:109-112 | the reader's flags say how the last block ended |
| Strategies.FeedGrows | src/strategies/cobs/read.cpp:52-60 | output only grows and an error is final for the frame |
| ByteStuffing.AcceptedExactly | src/strategies/byte_stuffing/mixins.cpp:6-17 | a configuration is accepted if and only if no data can put the delimiter in a body |
| ByteStuffing.RefusedExactly | src/strategies/byte_stuffing/mixins.cpp:6-17 | each error status by the configurations that get it |
| ByteStuffing.DefaultsAccepted | src/strategies/byte_stuffing/mixins.cpp:19-33 | the two default configurations pass the check |
| ByteStuffing.StuffedByte | src/strategies/byte_stuffing/write.cpp:27-33 | delimiter and escape byte become the escape byte and the masked byte; every other byte is left alone |
| ByteStuffing.StuffLength | src/strategies/byte_stuffing/write.cpp:27-33 | one byte more for each delimiter or escape byte in the data, at most twice the data |
| Bytes.XorInvolution | src/strategies/byte_stuffing/read.cpp:32-32 | masking twice gives the byte back, and only the zero mask leaves a byte unchanged |
| Framing.CutTerminated | src/strategies/cobs/write.cpp:44-51 | any list of delimiter-free bodies, each followed by the delimiter, is cut back into the same list |
| Framing.CutAndJoin | src/strategies/cobs/read.cpp:48-51 | cutting a stream at its delimiters loses nothing |
| Packets.ParsePacketBytes | src/receiver.cpp:38-93 | the bytes of a packet parse back to the packet |
| Packets.SentIsPacket | src/transmitter.cpp:33-52 | what is sent is a packet in the receiver's sense with the same id and data, with the header byte as documented, the size high byte first and in two bytes exactly above 255, announcing and ending in the checksum exactly if one is asked for |
| Packets.WholeExactly | src/receiver.cpp:38-93 | a byte string is taken as a packet if and only if it has a supported version, a size in 1..maximum as announced, that many data bytes, the right checksum if announced, and nothing more |
| Packets.ErrorsExactly | src/receiver.cpp:38-93 | each parser error by the bytes that bring it about |
| Packets.TooLongExactly | src/receiver.cpp:62-65 | the stream error of the parser means exactly that something follows a whole packet |
| Packets.PartWaits | src/receiver.cpp:38-93 | no part of a packet is taken for an error or for a whole packet |
| Packets.WrongForGood | src/receiver.cpp:14-20 | further bytes never change a verdict |
| Packets.WholeIsExact | src/receiver.cpp:62-65 | any byte after a whole packet is a stream error |
| Packets.HeaderFields | tests/BDSP/transmitter_tests.cpp:79-81 | header fields are independent and a sent header has a supported version |
| Crc8.Compute | src/checksums/crc8.cpp:6-19 | the two loops compute the CRC function |
| Crc8.CrcChains | tests/BDSP/checksums/checksums.cpp:10-15 | a checksum may be computed in pieces |
| Crc8.CrcIsSerial | src/checksums/crc8.cpp:6-19 | the byte loop is the bit-serial shift register |
| Crc8.CrcIsRemainder | src/checksums/crc8.cpp:6-19 | the result is the remainder of the initialised message times x^8 modulo x^8 + poly: it is one, and there is no other |
| Crc8.ResidueZero | src/checksums/crc8.cpp:6-19 | a message followed by a byte leaves zero if and only if the byte is its checksum |
| Crc8.BurstDetected | src/checksums/crc8.cpp:6-19 | every nonzero error within eight consecutive bits of message and checksum is noticed, for every odd polynomial |
| Reference.CobsEncode | tests/utils/cobs.cpp:21-43 | the back-patching encoder followed by a zero equals the streaming writer's frame, for every input |
| Reference.CobsDecode | tests/utils/cobs.cpp:4-13 | on every accepted body the reference decoder gives the streaming reader's output, without its last byte exactly when a nonempty body ends with a full block; on a lone delimiter it ends one before the start |
| Reference.LosesLastByte | tests/utils/cobs.cpp:4-13 | on a single full block the reference decoder loses the last data byte |
| Reference.WrittenEndsShort | src/strategies/cobs/write.cpp:44-47 | frames that a writer made end with a short block |

## Left out
- The capacity of the COBS write buffer: the model takes a buffer of exactly `depth` bytes, which is what encoding needs; the size passed to the allocator is not modelled.
- `set_config` while a frame is in progress, with its process checks: the configuration is fixed for the life of an object. The checks of the configurations themselves are modelled.
- Function pointers, contexts, virtual inheritance, ready states and the attaching and detaching of readers and writers: handlers are logs and streams are ready.
- Handlers that call back into the reader or transmitter, or change packet fields other than `need_clear`.
- The value returned by `parse_packet_byte`, which the stream callback drops, and the byte passed along with an error or a delimiter.
- Reading on through a pipeline whose receiver has also been called directly: after such calls its events and buffers are accounted for call by call, no longer frame by frame.
- Setters of maximum packet size, checksum function and default checksum usage: they are fixed per run.
- The layout of the C++ bit-field: the header byte is id + 32 two-byte size + 64 checksum + 128 unsupported version, as the transmitter's tests have it.
- The named CRC presets, whose only difference is polynomial and initial value; the theorems hold for all of them.
- The state machine's `default` branch, which no value of the state reaches.
- GseReplaces: the number of replaced runs as a sum over stretches is given for COBS/GSE only; with COBS/ZPE it also depends on the buffer position, and NoRunIsLeft and RunReplaced say where a run is replaced.
- Writing again what a COBS/GSE or COBS/ZPE body delivered: the readers accept several encodings of the same data; which bodies they accept is `AcceptedBodies.AcceptedExactly`.
- Destructors, serial and Arduino input and output, examples, performance testers, build files.
