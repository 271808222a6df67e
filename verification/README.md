# A verified model of a streaming media server

The server takes live streams in over RTMP, keeps the recent packets of each stream, and hands them out over RTMP, as
MPEG-TS fragments for HLS, and as RTP for WebRTC. This Dafny 4.11 project models its protocol and media core and proves
what the code promises, or exactly when it does.

Each part has a specification (functions on sequences of bytes or packets), laws about it (lemmas), and classes with
the fields of the server's own objects whose methods are proved against the specification.

| files | part |
|---|---|
| `Bytes`, `Options` | bytes and fixed-width integers, optional values |
| `MsgBuffer` | the socket buffer |
| `RtmpParser`, `RtmpSegmentation`, `RtmpInput` | reading the chunk stream (section 5.3.1 of Adobe's RTMP Specification 1.0) |
| `RtmpWriter`, `RtmpRoundTrip`, `RtmpExtended`, `RtmpAnyHeaders`, `RtmpInterleaving`, `RtmpMux` | writing it, and what a peer gets |
| `RtmpWire` | both directions byte by byte |
| `WireNodes`, `RawSend`, `RtmpOutput`, `RtmpSession` | output batches, the header arena, partial writes, end to end |
| `TsPacket`, `TsDemux`, `PesEncoder`, `TsMux` | PES packets in 188-byte packets (sections 2.4.3.2 to 2.4.3.7 of ISO/IEC 13818-1) |
| `Crc32`, `PsiWriter` | the CRC of Annex A and PSI sections (section 2.4.4) |
| `AvcUnits`, `AacFrames`, `NalBits` | access units, ADTS headers, the bit reader |
| `LiveModel`, `LivePlayers`, `LiveStream` | the 1000-slot cache, the GOP index, codec headers and any number of players |
| `LiveLaws` | what a player is given, in terms of the history alone |
| `TimerModel`, `TimingWheel` | timers as deadlines, the four wheels, idle timeouts |
| `RtpVideo` | FU-A fragments (section 5.8 of RFC 6184) and the resend ring |
| `TimeCorrector`, `Hls` | time stamp correction; HLS fragments and their window |

A byte is an integer from 0 to 255; bit operations on single bytes are written as arithmetic, those of the CRC as bit
vectors. Widths are written out where values can leave them: 32-bit RTMP time stamps, 33-bit PTS, DTS and PCR, 16-bit
words, the unmasked 64-bit CRC register. What `writev` accepts, what a connection answers, and when packets, ticks and
players come are parameters, so every theorem covers all of their sequences. Every callback is one atomic step.

## Where the code is not what it seems

These are proved: each is a condition in a theorem or a lemma about a concrete input.

- Extended RTMP time stamps are written in host byte order and read as big-endian. `TimestampSurvives` for one message,
  `AllSurvive` for lists and `FullHeadersSurvive` for full headers say exactly which messages arrive unchanged;
  `LongStreamExample` is a frame about 4 h 40 min into a stream that does not.
- After a full header with an extended time stamp, a message without header loses four bytes (`ConfusedFails`,
  `RepeatExample`).
- A message without data ends its batch in an empty iovec, and `OnWrite` then calls `writev` for ever: `EmptyNodeStays`,
  `BatchUsedUp` and `OnWrite` give the exact condition, `EmptyMessageArrives` the bytes a publisher would send.
- The parser takes an unknown length of 0 for a whole chunk, so empty messages need fmt 0 or 1 (`UnspelledWaits`).
- Once the arena is full the rest of a message is dropped (`CutBodyWhole`, for a batch `BatchWhole`), and a header that
  crosses its end is written past it: `HeadersFitExact` says exactly when, `ArenaOverrun` is a message that does.
- An error of the first `write` of plain bytes is never noticed (`RawSends.RawConnection.SendInLoop`).
- `CRC32` and `CRC32Ieee` share one table and one flag; whichever is called first is right, the other wrong
  (`SharedTable`, `SharedTableIeee`).
- An encoder keeps its continuity counter when its pid changes, so the packets of a pid may skip numbers
  (`PidConsecutive`, `PidChangeExample`).
- A pid with bit 14 set would set the start flag of every packet (`StartFlagRead`).
- An AAC payload of 8185 to 8191 bytes is accepted although its length does not fit (`FrameLength`).
- NAL unit lengths of one byte are read as signed, so units of 128 to 255 bytes are refused, and those of three bytes are
  read from one byte (`SplitsAvcc`, `OneByteLengthExample`, `ThreeByteLengthsFail`). After an empty unit the type of a
  byte that does not belong to it is taken (`FalseDelimiter`).
- `GetUE` stops early near the end of the data (`CodeRead`), and the bit reader goes past data that ends in a 03 to be
  dropped (`LeavesExactly`).
- FU-A drops the F bit (`UnitSurvives`); resending stops at packet 65536 (`RequestLaw`).
- The test `min_idx > 0` keeps GOP 0 for one packet too long (`FirstFrame`, `StaleGop`).
- The hour and day wheels are never rotated (`NeverReleased`); `RunEvery` keeps its interval only below a minute
  (`IntervalKept`); delay 0 and whole minutes below an hour index a slot that does not exist (`AccessesExist`).
- `MsgBuffer` needs an initial capacity of at least 8 (`MsgBuffers.MsgBuffer.RetrieveAll`).
- The time corrector also lets a jump through that happens to wrap around to the right value (`IdentityLaw`).

## Model

| member | source | states |
|---|---|---|
| `RtmpSegmentation.SegmentationIndependence` | src/mmedia/rtmp/RtmpContext.cpp:80-262 | For any byte stream and any way of cutting it into reads, the parser ends with the same messages, the same unread bytes and the same per-stream state as in one read, although every early return has already changed state. |
| `RtmpSegmentation.Segmentation` | src/mmedia/rtmp/RtmpContext.cpp:80-262 | Feeding two pieces one after the other equals feeding them joined, from any parser state. |
| `RtmpSegmentation.OneChunkExtend` | src/mmedia/rtmp/RtmpContext.cpp:91-259 | A chunk that was complete is parsed the same whatever bytes follow it. |
| `RtmpSegmentation.OneChunkRetry` | src/mmedia/rtmp/RtmpContext.cpp:91-259 | Retrying a chunk from the state an early return left behind gives what a first attempt on the longer input gives. |
| `RtmpInputs.RtmpInput.ParseMessage` | src/mmedia/rtmp/RtmpContext.cpp:80-262 | The loop over the four per-stream maps delivers exactly the messages of the specification parser, leaves its unread bytes and its state. |
| `RtmpInputs.RtmpInput.ParseChunk` | src/mmedia/rtmp/RtmpContext.cpp:91-222 | One turn of the loop up to the extended timestamp: what it changes even when it has to wait for more bytes. |
| `RtmpInputs.RtmpInput.ParseExtended` | src/mmedia/rtmp/RtmpContext.cpp:212-259 | The extended timestamp (sticky for fmt 3) and the rest of the chunk. |
| `RtmpInputs.RtmpInput.OpenPacket` | src/mmedia/rtmp/RtmpContext.cpp:138-164 | A stream seen for the first time gets a packet and a header; a half-built packet is kept. |
| `RtmpInputs.RtmpInput.TakeFields` | src/mmedia/rtmp/RtmpContext.cpp:166-210 | Time stamp, delta, length, type and stream id as each fmt keeps or inherits them. |
| `RtmpInputs.RtmpInput.TakeChunk` | src/mmedia/rtmp/RtmpContext.cpp:234-259 | The body bytes join the packet; a full packet becomes a message and leaves its stream ready for the next. |
| `RtmpInputs.RtmpInput.MessageComplete` | src/mmedia/rtmp/RtmpContext.cpp:282-333 | A finished Set Chunk Size message changes the chunk size used for the next chunk; any other message leaves it. ChunkSizeRule says which message that is. |
| `RtmpWire.ChunkSizeRule` | src/mmedia/rtmp/RtmpContext.cpp:811-818 | In every state, for every chunk: the chunk size changes if and only if the chunk completes a message of type 1 with at least four bytes, and then to the 32-bit number they spell, high byte first, as a signed one. |
| `RtmpWire.SetChunkSizeOnWire` | src/mmedia/rtmp/RtmpContext.cpp:282-290 | The sixteen bytes of the message itself, for every size below 2^31 and whatever follows; the same bytes with any type but 1 leave the size at 128. |
| `RtmpWire.ReadFull` | src/mmedia/rtmp/RtmpContext.cpp:91-137 | Byte by byte, for each of the three sizes of the basic header: where a full header has its time stamp, length, type and (low byte first) stream id. |
| `RtmpWire.ReadShorter` | src/mmedia/rtmp/RtmpContext.cpp:91-137 | The same without the stream id. |
| `RtmpWire.ReadShortest` | src/mmedia/rtmp/RtmpContext.cpp:91-137 | With the distance only, and with nothing. |
| `RtmpWire.TimestampRules` | src/mmedia/rtmp/RtmpContext.cpp:166-232 | For a message in one chunk, any fmt and any past of its stream: the time stamp, type, stream id and length it is delivered with, and what the stream remembers; after 0xFFFFFF four more bytes, high byte first, replace the distance, but not the time stamp of a full header. |
| `RtmpRoundTrip.RoundTrip` | src/mmedia/rtmp/RtmpContext.cpp:512-666 | For every list of messages, empty ones included, whose header numbers are short and whose headers say the length of an empty message: whichever of fmt 0 to 3 the writer picks for each, parsing the chunks gives back exactly these messages in order, leaves no byte over and keeps writer and parser in step. |
| `RtmpRoundTrip.MessageParsed` | src/mmedia/rtmp/RtmpContext.cpp:512-666 | One message, empty or split into any number of chunks and followed by anything, is delivered whole. |
| `RtmpRoundTrip.ShortMessage` | src/mmedia/rtmp/RtmpContext.cpp:166-210 | One message with a short header number from any stream state that agrees with its header, whatever the timestamp before: it is delivered whole, with the timestamp as the parser adds it up modulo 2^32. |
| `RtmpRoundTrip.FirstChunk` | src/mmedia/rtmp/RtmpContext.cpp:517-620 | The first chunk of a message as the parser takes it: the message itself if it fits, the half-built packet otherwise. |
| `RtmpRoundTrip.NextChunk` | src/mmedia/rtmp/RtmpContext.cpp:611-661 | Each fmt 3 continuation moves the half-built packet on by exactly one chunk. |
| `RtmpRoundTrip.SyncKept` | src/mmedia/rtmp/RtmpContext.cpp:564-608 | Writer and parser still agree on timestamp, delta and lengths of every stream after a message. |
| `RtmpWire.BasicWritten` | src/mmedia/rtmp/RtmpContext.cpp:541-562 | The basic header of every chunk stream id is one, two or three bytes with fmt and id at their places. |
| `RtmpWire.WrittenFull` | src/mmedia/rtmp/RtmpContext.cpp:564-608 | The bytes of a message of one chunk with a full header. |
| `RtmpWire.WrittenNext` | src/mmedia/rtmp/RtmpContext.cpp:517-608 | Which of the four headers is chosen after any message on the stream, and its bytes: none exactly if type, length, stream id and distance repeat. |
| `RtmpWire.WrittenLong` | src/mmedia/rtmp/RtmpContext.cpp:564-661 | A long-stamped message of two chunks: 255 255 255, the time stamp low byte first in both chunk headers, the body cut after 4096 bytes. |
| `RtmpExtended.LateDelivery` | src/mmedia/rtmp/RtmpContext.cpp:212-232 | A message with a long header number and any fmt arrives with its whole payload from any stream state that agrees with its header, with a timestamp given in closed form. |
| `RtmpExtended.DriftClosed` | src/mmedia/rtmp/RtmpContext.cpp:227-231 | The additions of all continuation chunks add up to n times the byte-swapped number, modulo 2^32. |
| `RtmpExtended.LongStreamExample` | src/mmedia/rtmp/RtmpContext.cpp:587-591 | A key frame 0x1000001 ms into a stream is delivered stamped 0xFFFFFF. |
| `RtmpAnyHeaders.TimestampSurvives` | src/mmedia/rtmp/RtmpContext.cpp:166-232 | For every message on a stream with any past, long-stamped or not, and any fmt: it arrives unchanged if and only if its header says its length, the parser does not take four bytes of its body for a timestamp, and the timestamp read, in closed form, is its own. |
| `RtmpAnyHeaders.OneMessage` | src/mmedia/rtmp/RtmpContext.cpp:166-259 | With the first two conditions it arrives whole, and writer and parser still agree on everything but the timestamp. |
| `RtmpAnyHeaders.AnyRun` | src/mmedia/rtmp/RtmpContext.cpp:80-262 | For every list of messages, any headers and timestamps mixed, that meet these conditions in turn: exactly these messages arrive, whole and in order, each with a timestamp in closed form, and no byte is left over. |
| `RtmpAnyHeaders.AllSurvive` | src/mmedia/rtmp/RtmpContext.cpp:80-262 | The list arrives as it was sent if and only if every message lands on its own timestamp after its predecessors. |
| `RtmpAnyHeaders.ConfusedFails` | src/mmedia/rtmp/RtmpContext.cpp:212-236 | A message without header after a full header with an extended timestamp loses four bytes of its body, and its chunks do not deliver it, however many there are: the bytes left do not suffice. |
| `RtmpAnyHeaders.RepeatExample` | src/mmedia/rtmp/RtmpContext.cpp:212-236 | Two messages stamped 0x1000000, alike but for their data: only the first arrives. |
| `RtmpAnyHeaders.UnspelledWaits` | src/mmedia/rtmp/RtmpContext.cpp:145-152 | An empty message with fmt 2 or 3 never arrives by itself: the parser takes the unknown length for a chunk size and waits. |
| `RtmpAnyHeaders.FullHeaderRun` | src/mmedia/rtmp/RtmpContext.cpp:168-232 | For every list of messages with full headers, long-stamped or not, in any order, from any idle state of the parser: exactly these messages arrive in order, each with the timestamp in closed form, and no byte is left over. |
| `RtmpAnyHeaders.FullHeadersSurvive` | src/mmedia/rtmp/RtmpContext.cpp:168-232 | Such a list arrives as it was sent if and only if every message is stamped below 0xFFFFFF or lands on its own timestamp. |
| `RtmpInterleaving.Projection` | src/mmedia/rtmp/RtmpContext.cpp:137-259 | For every mixture of chunks, what one chunk stream delivers depends only on its own chunks. |
| `RtmpInterleaving.MixtureParses` | src/mmedia/rtmp/RtmpContext.cpp:137-259 | A mixture parses chunk by chunk if and only if every stream taken alone does. |
| `RtmpInterleaving.RunChunks` | src/mmedia/rtmp/RtmpContext.cpp:80-262 | Parsing joined chunks delivers what they deliver one by one. |
| `RtmpMux.ChunksAreTheStream` | src/mmedia/rtmp/RtmpContext.cpp:512-666 | Cutting the writer's bytes at chunk borders loses and reorders nothing. |
| `RtmpMux.InterleavedDelivery` | src/mmedia/rtmp/RtmpContext.cpp:80-262 | Several senders, chunks mixed in any order, any reads: every stream's messages arrive whole and in order. |
| `RtmpOutputs.RtmpOutput.BuildChunk` | src/mmedia/rtmp/RtmpContext.cpp:512-666 | The header bytes go to the arena and the body nodes to the gather list so that the list reads as exactly the chunks of the message (or the prefix up to where the arena is full); its last entry has bytes if and only if the message has. It needs the write position afterwards to be inside the arena, nothing more. |
| `RtmpOutputs.CutBodyWhole` | src/mmedia/rtmp/RtmpContext.cpp:622-628 | The whole body is chunked if and only if every continuation header starts inside the 4096-byte arena; otherwise a prefix of the chunks is emitted. |
| `RtmpOutputs.HeadersFitExact` | src/mmedia/rtmp/RtmpContext.cpp:622-655 | For n more headers of k bytes from position `at`: none is written across the end of the arena if and only if the arena is full already, all of them fit, or one ends exactly at its end. |
| `RtmpOutputs.HeadersInside` | src/mmedia/rtmp/RtmpContext.cpp:622-655 | For a body begun inside the arena that check holds if and only if the write position after it is inside, too. |
| `RtmpOutputs.RtmpOutput.RoomExact` | src/mmedia/rtmp/RtmpContext.cpp:539-655 | That position is inside if and only if the first header fits and the others pass the arithmetic check. |
| `RtmpOutputs.BatchWhole` | src/mmedia/rtmp/RtmpContext.cpp:489-507 | For every batch of any messages: all chunks of all messages are emitted if and only if the last continuation header of the batch belongs inside the arena. |
| `RtmpOutputs.CompactFits` | src/mmedia/rtmp/RtmpContext.cpp:496-503 | Ten messages of at most 409 header bytes each are always emitted completely and inside the arena, whatever was sent before. |
| `RtmpOutputs.ArenaOverrun` | src/mmedia/rtmp/RtmpContext.cpp:622-655 | A long-stamped message of two chunks, begun 18 bytes before the end of the arena, is written three bytes past it. |
| `RtmpOutputs.RtmpOutput.Send` | src/mmedia/rtmp/RtmpContext.cpp:489-507 | While a batch is being written nothing changes; otherwise exactly the first ten waiting messages (or all) are chunked, once, in order, and one of them is cut short exactly by the condition above. |
| `RtmpOutputs.RtmpOutput.DrainQueue` | src/mmedia/rtmp/RtmpContext.cpp:496-503 | The loop chunks min(10, waiting) messages: the bytes are those of the batch from the arena position on. |
| `RtmpOutputs.RtmpOutput.PushOutQueue` | src/mmedia/rtmp/RtmpContext.cpp:686-691 | The message is last in line; bytes on their way are not touched; on an idle context it is chunked at once, and cut short exactly by the condition above. |
| `RtmpOutputs.RtmpOutput.PushFrames` | src/live/user/RtmpPlayerUser.cpp:87-104 | A burst of frames, chunked directly into a fresh batch, follows everything sent before, and is cut short if and only if its last continuation header belongs outside the arena. |
| `RtmpOutputs.RtmpOutput.CheckAndSend` | src/mmedia/rtmp/RtmpContext.cpp:667-685 | Only after a batch was accepted completely is the arena reused; at most ten further messages follow, from its start. |
| `RtmpOutputs.RtmpOutput.SendInLoop` | src/network/net/TcpConnection.cpp:247-266 | The gather list moves to the connection without losing or reordering bytes; on a closed connection it is dropped. |
| `RtmpOutputs.RtmpOutput.ConsumeFront` | src/network/net/TcpConnection.cpp:147-160 | The iovec loop removes exactly the accepted bytes from the front. |
| `RtmpOutputs.RtmpOutput.OnWrite` | src/network/net/TcpConnection.cpp:132-191 | Whatever writev answers: accepted bytes only grow, by a prefix of the bytes on offer, and the batch is finished (more is chunked, or the context is idle) if and only if all of them are accepted and the message chunked last has data. What is chunked then is the next batch of at most ten. The connection ends closed if and only if it was closed or the first answer that is not a number of bytes, while some are left, is a fatal error; a full socket buffer changes nothing. |
| `RtmpOutputs.RtmpOutput.RefusalStep` | src/network/net/TcpConnection.cpp:143-182 | That answer, step by step: accepting part of the bytes leaves the question to the answers that follow for the bytes that are left. |
| `RtmpOutputs.RtmpOutput.BatchUsedUp` | src/network/net/TcpConnection.cpp:143-168 | In every reachable state with something to write: accepting all of its bytes empties the gather list if and only if the message chunked last has data. |
| `RtmpOutputs.RtmpOutput.constructor` | src/mmedia/rtmp/RtmpContext.cpp:9-20 | A new context has sent and promised nothing. |
| `WireNodes.ConsumeTakes` | src/network/net/TcpConnection.cpp:147-160 | After `ret` accepted bytes the gather list reads as the old bytes without the first `ret`. |
| `WireNodes.ConsumeKeeps` | src/network/net/TcpConnection.cpp:147-160 | What is left never points further into the arena, and ends in an empty entry if and only if the list did. |
| `WireNodes.EmptyNodeStays` | src/network/net/TcpConnection.cpp:145-168 | When all bytes on offer are accepted the list becomes empty if and only if its last entry is not empty; behind a trailing empty entry the loop calls writev forever. |
| `WireNodes.WireFrame` | src/mmedia/rtmp/RtmpContext.cpp:593-595 | Writing headers beyond the current end never changes bytes already queued. |
| `RawSends.RawConnection.SendInLoop` | src/network/net/TcpConnection.cpp:206-246 | Plain bytes go out at once if nothing waits, otherwise behind the waiting ones, and the completion callback runs only when all are out. write's answer is kept unsigned: after an error the connection stays open and one byte too many, the one in front of the buffer, is queued. Over every run the queued bytes are those handed in if and only if no first write failed. |
| `RawSends.RawConnection.Written` | src/network/net/TcpConnection.cpp:132-191 | A partial write moves exactly its bytes from waiting to accepted; a failed one closes the connection. |
| `RtmpSession.WireOrder` | src/mmedia/rtmp/RtmpContext.cpp:489-507 | At every moment of every run the accepted bytes are a prefix of what was chunked, and that is all chunks of the messages in FIFO order if and only if none was cut short; an idle open connection has sent all of it, with no message waiting. |
| `RtmpSession.Delivery` | src/mmedia/rtmp/RtmpContext.cpp:80-262 | End to end: whatever prefix of the bytes reached the peer, in whatever reads, the peer has exactly the first messages; with all bytes, all of them. |
| `RtmpSession.CutStream` | src/mmedia/rtmp/RtmpContext.cpp:80-262 | A stream cut anywhere delivers a prefix of the messages of the whole stream. |
| `RtmpSession.SessionDelivery` | src/mmedia/rtmp/RtmpContext.cpp:692-711 | A session that starts with 128-byte chunks and announces 4096 first delivers every following ordinary message. |
| `RtmpSession.OpeningBytes` | src/mmedia/rtmp/RtmpContext.cpp:692-711 | That announcement is 02 00 00 00 00 00 04 01 00 00 00 00 00 00 10 00. |
| `RtmpSession.EmptyMessageArrives` | src/mmedia/rtmp/RtmpContext.cpp:234-256 | Twelve bytes of a publisher that are parsed as an audio message without data, the kind whose batch is never finished. |
| `MsgBuffers.MsgBuffer.EnsureWritableBytes` | src/network/base/MsgBuffer.cpp:20-41 | Afterwards at least `len` bytes are writable and the readable bytes are unchanged; nothing moves if there is room, the array is kept if the head room suffices beyond eight bytes, and else it grows at least to twice its size. |
| `MsgBuffers.MsgBuffer.Append` | src/network/base/MsgBuffer.cpp:55-60 | The view becomes old view followed by the data. |
| `MsgBuffers.MsgBuffer.AddInFront` | src/network/base/MsgBuffer.cpp:189-213 | The view becomes the data followed by the old view, in all three ways of making room. |
| `MsgBuffers.MsgBuffer.ReadFd` | src/network/base/MsgBuffer.cpp:129-155 | A scattered read appends all bytes read, through the extension buffer if need be. |
| `MsgBuffers.MsgBuffer.Retrieve` | src/network/base/MsgBuffer.cpp:112-120 | Drops the first bytes, or everything if there are not more; its positions stay inside the array if and only if bytes remain or the initial capacity is at least 8. |
| `MsgBuffers.MsgBuffer.RetrieveAll` | src/network/base/MsgBuffer.cpp:121-128 | Afterwards the positions are inside the array if and only if the initial capacity is at least 8; then the array is kept and the view is empty. |
| `MsgBuffers.MsgBuffer.HasWritten` | src/network/base/MsgBuffer.h:297-303 | Bytes already stored behind the view join it. |
| `MsgBuffers.MsgBuffer.Unwrite` | src/network/base/MsgBuffer.h:309-313 | The last bytes leave the view. |
| `PesEncoders.PesEncoder.WritePes` | src/mmedia/mpegts/VideoEncoder.cpp:150-281 | The packet loop writes exactly the packets of the packet-level specification, whatever samples the payload is split into, and the continuity counter goes on by their number. |
| `PesEncoders.PesEncoder.SetPid` | src/mmedia/mpegts/AudioEncoder.cpp:55-58 | The pid changes and the continuity counter does not. |
| `PesEncoders.PesEncoder.WritePacket` | src/mmedia/mpegts/VideoEncoder.cpp:158-279 | One 188-byte packet: header, PCR, PES header, stuffing of 0, 1, 2 or more bytes, payload. |
| `PesEncoders.PesEncoder.Stuff` | src/mmedia/mpegts/VideoEncoder.cpp:237-257 | Stuffing an existing or a new adaptation field leaves header and PES header bytes intact and moves the payload to the end. |
| `PesEncoders.PesEncoder.PutTsHeader` | src/mmedia/mpegts/VideoEncoder.cpp:160-187 | The TS header, with a PCR field on key frames. |
| `PesEncoders.PesEncoder.PutPesHeader` | src/mmedia/mpegts/VideoEncoder.cpp:188-228 | The PES header with PTS, or with PTS and DTS if they differ. |
| `PesEncoders.PesEncoder.CopyPayload` | src/mmedia/mpegts/VideoEncoder.cpp:258-277 | Payload bytes come out of the sample list in order, and the rest stays. |
| `TsDemux.PacketRead` | src/mmedia/mpegts/VideoEncoder.cpp:158-279 | A demultiplexer reads from every packet the pid, flags, counter, PCR and exactly the payload put in, all stuffing cases included, and every fixed bit is as it has to be: sync byte, reserved bits, adaptation field length and flags, filler. |
| `TsDemux.PesHeaderRead` | src/mmedia/mpegts/VideoEncoder.cpp:187-228 | The PES header is read back: stream id, length (0 when it does not fit), PTS and DTS modulo 2^33, by a reader that refuses a wrong fixed bit, prefix or marker bit. |
| `TsDemux.StartFlagRead` | src/mmedia/mpegts/VideoEncoder.cpp:164-170 | The start flag is read correctly if and only if bit 14 of the pid is clear. |
| `TsDemux.PacketsContinuous` | src/mmedia/mpegts/VideoEncoder.cpp:171-173 | The packets of a PES packet carry its pid and counters that run modulo 16. |
| `TsDemux.UnitGathered` | src/mmedia/mpegts/VideoEncoder.cpp:150-281 | Gathering the packets of one PES packet gives exactly that PES packet. |
| `TsMux.StreamRecovered` | src/mmedia/mpegts/AudioEncoder.cpp:106-206 | For every mixture of audio and video calls and of PAT and PMT sections, by encoders that may change their pids, and every pid: a demultiplexer recovers exactly one unit for each call on that pid, in order. |
| `TsMux.UnitsRead` | src/mmedia/mpegts/VideoEncoder.cpp:150-281 | Each recovered unit reads back as its call: payload, stream id, length, PTS and DTS of a frame with all fixed and marker bits right, every field of a table with its CRC checked. |
| `TsMux.ClocksRead` | src/mmedia/mpegts/VideoEncoder.cpp:158-187 | Over all packets of a frame: a clock is in the first packet if the frame is a key frame, and then it is its presentation time modulo 2^33; in no other packet is there one, and only the first has the start flag. |
| `TsMux.PidConsecutive` | src/mmedia/mpegts/VideoEncoder.cpp:171-173 | For every mixture and every pid that only one encoder uses: its packets carry consecutive counters across all calls if and only if between two calls on it the encoder sends a multiple of 16 packets with other pids. |
| `TsMux.SteadyPid` | src/mmedia/mpegts/VideoEncoder.cpp:171-173 | That is always so for an encoder that keeps its pid. |
| `TsMux.PidChangeExample` | src/mmedia/mpegts/TsEncoder.cpp:18-51 | AAC, MP3, AAC again, one packet each: the counter of pid 0x101 skips a number. |
| `TsPackets.PtsRoundTrip` | src/mmedia/mpegts/TsTool.cpp:144-156 | The five PTS bytes read back as the time modulo 2^33, with their prefix. |
| `TsPackets.PtsLayout` | src/mmedia/mpegts/TsTool.cpp:144-156 | The five bytes, bit group by bit group, each group followed by a marker bit of 1. |
| `TsPackets.PcrRoundTrip` | src/mmedia/mpegts/VideoEncoder.cpp:20-35 | The six PCR bytes read back as the base modulo 2^33. |
| `TsPackets.PcrLayout` | src/mmedia/mpegts/VideoEncoder.cpp:20-35 | The six bytes: 33 bits, six ones, nine zeros. |
| `TsPackets.TsHeaderLayout` | src/mmedia/mpegts/VideoEncoder.cpp:160-180 | The four bytes of a TS header. |
| `TsPackets.PesLayout` | src/mmedia/mpegts/VideoEncoder.cpp:188-228 | The bytes of a PES header before its time stamps, and their prefixes. |
| `Crc32.TableCrcIsDecoder` | src/mmedia/mpegts/TsTool.cpp:55-98 | For every byte string and start value the table-driven CRC equals the bit-serial register of ISO/IEC 13818-1 Annex A. |
| `Crc32.CrcOfZero` | src/mmedia/mpegts/TsTool.cpp:55-98 | The CRC of one zero byte is 0x4E08BFB4. |
| `Crc32.TsTool.CRC32` | src/mmedia/mpegts/TsTool.cpp:100-121 | The loop with its unmasked 64-bit register returns the table-driven CRC; the table is the plain one unless CRC32Ieee filled it first, and with the plain one the result is that register. |
| `Crc32.TsTool.MakeTable` | src/mmedia/mpegts/TsTool.cpp:29-60 | The table holds, for either variant, the entries specified: the polynomial remainder of every byte, or that of the reflected byte, reflected. |
| `Crc32.TsTool.CRC32Ieee` | src/mmedia/mpegts/TsTool.cpp:122-142 | On first use it fills the shared table with reflected entries; whenever that table is reflected, the result is the checksum of IEEE 802.3: its bit-serial register over the bytes, least significant bits first, complemented. |
| `Crc32.MirrorCrcIsIeee` | src/mmedia/mpegts/TsTool.cpp:81-97 | For every byte string the loop with the reflected table computes that register. |
| `Crc32.ShiftByteMirrored` | src/mmedia/mpegts/TsTool.cpp:41-56 | It mirrors the register of ISO/IEC 13818-1 Annex A fed with reversed bytes. |
| `Crc32.ReflectIs` | src/mmedia/mpegts/TsTool.cpp:16-26 | The reflection loop moves bit k of 32 to position 31 - k. |
| `Crc32.TsTool.MakeEntry` | src/mmedia/mpegts/TsTool.cpp:38-59 | One entry: eight divisions of the byte or of its reflection, reflected back. |
| `Crc32.TsTool.Reflection` | src/mmedia/mpegts/TsTool.cpp:16-26 | The low bits in reverse order. |
| `Crc32.RightTable` | src/mmedia/mpegts/TsTool.cpp:74-80 | A table makes the loop give the right CRC for all inputs if and only if every entry is the polynomial remainder of its byte. |
| `Crc32.SharedTable` | src/mmedia/mpegts/TsTool.cpp:114-119 | With the shared table, CRC32 is right for all inputs if and only if the first of the two calls was CRC32. |
| `Crc32.SharedTableIeee` | src/mmedia/mpegts/TsTool.cpp:136-141 | And CRC32Ieee is right for all inputs if and only if the first call was CRC32Ieee. |
| `Crc32.TablesDiffer` | src/mmedia/mpegts/TsTool.cpp:29-60 | The entries of 0x80 are 0xEDB88320 and 0x690CE0EE. |
| `Crc32.Residue` | src/mmedia/mpegts/PSIWriter.cpp:28-30 | Data followed by its CRC leaves the register at zero. |
| `PsiWriters.PsiWriter.WriteSection` | src/mmedia/mpegts/PSIWriter.cpp:12-33 | The section with length and with the CRC of the shared table, whichever that is, is filled in and sent as packets. |
| `PsiWriters.SectionByOwnTable` | src/mmedia/mpegts/PSIWriter.cpp:28-30 | With the table CRC32 builds that is the section of the standard. |
| `PsiWriters.PsiWriter.PushSection` | src/mmedia/mpegts/PSIWriter.cpp:34-77 | The packets of a section: pointer field in the first, filler in the last, counters going on. |
| `PsiWriters.PsiWriter.PushPacket` | src/mmedia/mpegts/PSIWriter.cpp:40-76 | One packet of a section, filled up with 0xff. |
| `PsiWriters.PsiWriter.FillBody` | src/mmedia/mpegts/PSIWriter.cpp:14-29 | The section before its CRC. |
| `PsiWriters.SectionRead` | src/mmedia/mpegts/PSIWriter.cpp:12-33 | Every section passes the CRC check and reads back field by field, with the right section_length. |
| `PsiWriters.SectionGathered` | src/mmedia/mpegts/PSIWriter.cpp:34-77 | Its packets gather to one unit: pointer field, section, filler. |
| `PsiWriters.SectionDelivered` | src/mmedia/mpegts/PSIWriter.cpp:12-77 | From the packets back to the fields, CRC checked. |
| `PsiWriters.SectionLayout` | src/mmedia/mpegts/PSIWriter.cpp:14-29 | The bytes of a section before its CRC. |
| `AacFrames.EncodeAAC` | src/mmedia/mpegts/AudioEncoder.cpp:63-96 | A decoder of the result finds sync word, profile and rate, and behind the header exactly the first sample, announced with its length if and only if it has at most 8184 bytes; samples of 0 or more than 8191 bytes are refused, later ones never sent. |
| `AacFrames.FrameLength` | src/mmedia/mpegts/AudioEncoder.cpp:72-86 | The frame length read back is the real one if and only if the payload has at most 8184 bytes, although 8191 are accepted. |
| `AacFrames.ProfileAndRate` | src/mmedia/mpegts/AudioEncoder.cpp:75-80 | Sync word, all fixed bits and sampling rate index read back; object types 1, 2, 3, 5 and 29 become profiles 0, 1, 2, 1 and 1, every other one 3. |
| `AacFrames.Channels` | src/mmedia/mpegts/AudioEncoder.cpp:81-82 | The channel configuration reads back if and only if it is below 8. |
| `AvcUnits.VideoDemux.DecodeAVCNaluIAvcc` | src/mmedia/demux/VideoDemux.cpp:103-140 | The loop splits a length-prefixed access unit as specified, errors and overruns included, one-byte lengths being read as signed; the flags are set exactly by the bytes really inspected, which after an empty unit belong to what follows it. |
| `AvcUnits.SplitsAvcc` | src/mmedia/demux/VideoDemux.cpp:103-140 | For every list of non-empty NAL units whose lengths can be written: it is returned if and only if every length is readable, which is always so with two- and four-byte lengths, below 128 bytes with one-byte lengths, and never with three-byte lengths. |
| `AvcUnits.OneByteLengthExample` | src/mmedia/demux/VideoDemux.cpp:116-128 | A unit of 200 bytes behind a one-byte length is refused. |
| `AvcUnits.ThreeByteLengthsFail` | src/mmedia/demux/VideoDemux.cpp:108-119 | With three-byte lengths no non-empty list is returned: only the first byte is read. |
| `AvcUnits.BadEnds` | src/mmedia/demux/VideoDemux.cpp:103-140 | After any list of non-empty units with two- or four-byte lengths: a unit cut short and a length of 0 at the end are refused, a single byte over is ignored, and two or three bytes over make the reader of four-byte lengths leave the data. |
| `AvcUnits.AvcWriter.EncodeAvc` | src/mmedia/mpegts/VideoEncoder.cpp:67-131 | The pieces are start codes and NAL units of the list specified, and the announced size is the sum of all pieces. |
| `AvcUnits.AvcWriter.InsertSets` | src/mmedia/mpegts/VideoEncoder.cpp:95-119 | Each parameter set the demuxer has is added behind a start code and remembered by the writer. |
| `AvcUnits.VideoDemux.CheckNaluType` | src/mmedia/demux/VideoDemux.cpp:243-258 | The byte at the start of the unit, whether or not it belongs to it, sets the flag of its type and clears none. |
| `AvcUnits.InspectsFirstBytes` | src/mmedia/demux/VideoDemux.cpp:121-131 | For every list of non-empty units with readable lengths the bytes inspected are exactly their first bytes. |
| `AvcUnits.FalseDelimiter` | src/mmedia/demux/VideoDemux.cpp:121-131 | 00 00 09 with two-byte lengths is one empty unit, and 09 is inspected as if it were a delimiter. |
| `AvcUnits.SentOnce` | src/mmedia/mpegts/VideoEncoder.cpp:80-124 | For all parameter sets, missing ones included: every NAL unit is sent once and in order; sets that are not in band and that the writer lacks go directly before the first IDR unit, once, but before every IDR unit if the demuxer lacks a set that the writer has. |
| `AvcUnits.EmptyUnitsDropped` | src/mmedia/mpegts/VideoEncoder.cpp:80-88 | Every access unit is sent as it is without its empty units. |
| `AvcUnits.PayloadIs` | src/mmedia/mpegts/VideoEncoder.cpp:132-149 | The joined pieces are the NAL units behind start codes, and as long as announced. |
| `AvcUnits.AnnexBParsed` | src/mmedia/mpegts/VideoEncoder.cpp:132-149 | NAL units without an inner start code are found again behind theirs. |
| `AvcUnits.AccessUnitPreserved` | src/mmedia/mpegts/VideoEncoder.cpp:67-131 | From AVCC in to Annex B out: the units are split if and only if their lengths are readable, and the same units come out, plus delimiter and parameter sets where due, whether sets are in band, missing or sent before. |
| `AvcUnits.SetsInBand` | src/mmedia/mpegts/VideoEncoder.cpp:80-131 | With parameter sets in band the parsed output is the units, after 09 f0 if and only if the demuxer saw no delimiter. |
| `AvcUnits.FreshWriter` | src/mmedia/mpegts/VideoEncoder.cpp:89-119 | With none in band and a fresh writer it is the units, with the sets the demuxer has, SPS before PPS, inserted once, before the first IDR unit if there is one. |
| `AvcUnits.KnownSets` | src/mmedia/mpegts/VideoEncoder.cpp:89-119 | With a writer that was just given these sets it is the units. |
| `AvcUnits.ChangedSets` | src/mmedia/mpegts/VideoEncoder.cpp:89-119 | With a writer that has other sets it is as with a fresh one. |
| `LiveStream.Stream.AddPacket` | src/live/Stream.cpp:71-127 | The history grows by the packet, and the 1000-slot ring, GOP index, codec headers and flags again agree with the whole history. |
| `LiveStream.Stream.GetFrames` | src/live/Stream.cpp:129-165 | What a player is given is a function of the history and its own state; the ring is never a source of other packets. |
| `LiveStream.Stream.LocateGop` | src/live/Stream.cpp:166-248 | First position and headers of a new player. |
| `LiveStream.Stream.LocateMeta` | src/live/Stream.cpp:186-196 | The metadata a waiting player gets. |
| `LiveStream.Stream.LocateAudio` | src/live/Stream.cpp:197-207 | The audio header a waiting player gets. |
| `LiveStream.Stream.LocateVideo` | src/live/Stream.cpp:208-218 | The video header a waiting player gets. |
| `LiveStream.Stream.SaveHeader` | src/live/Stream.cpp:86-104 | A codec header is stored and its kind announced, so flags and stored headers agree. |
| `LiveStream.Stream.HasAnyMedia` | src/live/Stream.cpp:49-52 | Some codec header has been stored. |
| `LiveStream.Stream.SkipFrame` | src/live/Stream.cpp:249-292 | A player that fell behind moves to a later GOP with newer headers only. |
| `LiveStream.Stream.GetNextFrame` | src/live/Stream.cpp:294-317 | Up to ten packets out of the ring, each the newest one that shares its slot. |
| `LiveStream.Stream.constructor` | src/live/Stream.cpp:9-14 | An empty stream agrees with the empty history. |
| `LiveStream.GopMgr.GetGopByLatency` | src/live/base/GopMgr.cpp:28-47 | The reverse loop goes back from the newest GOP, stops at the first one beyond the latency, and answers the one it passed last. |
| `LiveStream.GopMgr.ClearExpriedGop` | src/live/base/GopMgr.cpp:48-65 | Exactly the GOPs up to the index are erased, the rest keep their order. |
| `LiveStream.GopMgr.AddFrame` | src/live/base/GopMgr.cpp:6-19 | A key frame enters the index; the newest time stamp is kept. |
| `LiveStream.GopsAbove` | src/live/base/GopMgr.cpp:48-65 | Erasing old GOPs equals indexing only later key frames. |
| `LiveStream.SlotMoves` | src/live/Stream.cpp:108 | One store per packet keeps every slot at the newest packet that maps to it. |
| `LiveStream.SlotRead` | src/live/Stream.cpp:304 | Reading the slot of an index yields the newest packet sharing it. |
| `LiveStream.CodecHeader.Lookup` | src/live/base/CodecHeader.cpp:19-69 | The reverse loop finds the newest header not after the index, or else the newest of all. |
| `LiveStream.CodecHeader.Meta` | src/live/base/CodecHeader.cpp:19-35 | The metadata for a position. |
| `LiveStream.CodecHeader.VideoHeader` | src/live/base/CodecHeader.cpp:36-52 | The video header for a position. |
| `LiveStream.CodecHeader.AudioHeader` | src/live/base/CodecHeader.cpp:53-69 | The audio header for a position. |
| `LiveStream.CodecHeader.ParseCodecHeader` | src/live/base/CodecHeader.cpp:177-193 | The header joins the list of its kind and becomes its newest. |
| `LiveStream.PlayerUser.PostFrames` | src/live/user/RtmpPlayerUser.cpp:14-62 | One pending header, or all frames, go out if the connection takes them; the player is deactivated exactly when nothing is pending. |
| `LivePlayers.Run` | src/live/Stream.cpp:129-165 | In every interleaving of packets, joins and posts by any number of players, every player's laws hold (cursor, headers, order, conservation). |
| `LivePlayers.FramesSent` | src/live/Stream.cpp:143-164 | In every run, what a connection took is a prefix of a list whose indices strictly increase, each successor being the next index, a key frame, or the first cached after missing ones; it starts at a key frame but for the one exception. |
| `LivePlayers.HeadersPrecedeFrames` | src/live/user/RtmpPlayerUser.cpp:22-57 | In every run, before its first frame a player's connection took every header the stream had, for the GOP it starts at. |
| `LivePlayers.SendMoves` | src/live/user/RtmpPlayerUser.cpp:23-57 | Sending only moves items from the player to the connection: none lost, repeated, overwritten or reordered. |
| `LivePlayers.GetKeeps` | src/live/Stream.cpp:129-165 | GetFrames keeps all laws, whether it waits, locates, skips or goes on. |
| `LivePlayers.PostKeeps` | src/live/user/RtmpPlayerUser.cpp:14-62 | So does a whole post. |
| `LivePlayers.PostSeatPosts` | src/live/user/RtmpPlayerUser.cpp:14-62 | A player's step in these runs is PostFrames of its player: the same player afterwards, the same items to the connection. |
| `LivePlayers.AddKeeps` | src/live/Stream.cpp:71-127 | A new packet never invalidates what players were given. |
| `LivePlayers.NeverStalls` | src/live/Stream.cpp:186-232 | Once a GOP is found, every announced header kind is stored, so locating never fails at its second return. |
| `LivePlayers.HeaderChoice` | src/live/base/CodecHeader.cpp:19-69 | For a GOP after the first packet, the chosen header is the newest one not after it, whenever one exists. |
| `LivePlayers.FirstFrame` | src/live/Stream.cpp:106-113 | The first frame is the located key frame if and only if this is not GOP 0 in a history of exactly 1001 packets (the test is min_idx > 0). |
| `LivePlayers.StaleGop` | src/live/Stream.cpp:106-113 | A history of 1001 packets with one key frame at its start: GOP 0 is located, and the player's first frame is packet 1000, no key frame. |
| `LivePlayers.LocatedGop` | src/live/base/GopMgr.cpp:28-65 | A located GOP is a key frame still in the cache, but for that exception. |
| `LivePlayers.Idle` | src/live/user/RtmpPlayerUser.cpp:50-61 | A player that may send goes idle if and only if it waits for its first GOP or has every packet. |
| `LiveLaws.ByLatencyLaw` | src/live/base/GopMgr.cpp:28-47 | For every index: no GOP is chosen if and only if there is none or the newest is beyond the latency; else one such that all from it on are within the latency and the one before it is not. |
| `LiveLaws.StartLaw` | src/live/Stream.cpp:166-185 | For every history: where a player starts is a key frame among the packets kept such that it and all later ones are within the latency of the newest packet and the one before it is not; it has to wait if and only if the newest is not. |
| `LiveLaws.HeaderLaw` | src/live/base/CodecHeader.cpp:19-69 | For every history: the header chosen is the newest not after the position, if there is one and the position is not the first, else the newest of all. |
| `LiveLaws.NewPlayerGets` | src/live/Stream.cpp:129-248 | A new player gets nothing while it has to wait; then these headers and ten packets (or all) from that key frame on, but for the one exception. |
| `LiveLaws.FollowerGoesOn` | src/live/Stream.cpp:143-165 | A player neither more than 1000 packets nor more than twice its latency behind gets the next ten. |
| `LiveLaws.FollowerSkips` | src/live/Stream.cpp:249-292 | One that is further behind gets ten from the key frame chosen for a new player, if that is ahead of it, and exactly those headers that are newer than its own. |
| `LiveLaws.NothingNew` | src/live/Stream.cpp:129-142 | A player that still holds something gets nothing, nor does any before the first codec header. |
| `LiveLaws.Quiet` | src/live/user/RtmpPlayerUser.cpp:14-22 | Nothing is sent before the first key frame or before the first codec header. |
| `LiveLaws.OneAtATime` | src/live/user/RtmpPlayerUser.cpp:22-62 | One post sends metadata, audio header, video header or all frames, in this order of preference. |
| `TimingWheels.TimingWheel.InsertEntry` | src/network/net/TimingWheel.cpp:68-86 | The wheels gain exactly the deadline t + d for d below a minute, t - t mod 60 + d below an hour; longer delays up to 30 days park the entry, and more are refused. |
| `TimingWheels.AccessesExist` | src/network/net/TimingWheel.cpp:29-86 | For every delay: all slots that are indexed, at once and when the minute slot is dropped, exist if and only if the delay is neither 0 nor a multiple of a minute below an hour. |
| `TimingWheels.MissingSlots` | src/network/net/TimingWheel.cpp:29-42 | Delay 0 indexes slot 2^32 - 1 at once, delay 60 does so a minute later. |
| `TimingWheels.TimingWheel.InsertSecondEntry` | src/network/net/TimingWheel.cpp:29-31 | The slot of the delay gets the entry. |
| `TimingWheels.TimingWheel.InsertMinuteEntry` | src/network/net/TimingWheel.cpp:35-42 | The slot of the minutes gets an entry that keeps the seconds. |
| `TimingWheels.TimingWheel.InsertHourEntry` | src/network/net/TimingWheel.cpp:46-53 | The slot of the hours gets an entry that keeps the seconds. |
| `TimingWheels.TimingWheel.InsertDayEntry` | src/network/net/TimingWheel.cpp:57-64 | The slot of the days gets an entry that keeps the seconds. |
| `TimingWheels.TimingWheel.OnTimer` | src/network/net/TimingWheel.cpp:90-116 | One tick at most per second; the entries released are exactly those whose last reference ends at this tick, periodic ones being inserted again. |
| `TimingWheels.TimingWheel.Cascade` | src/network/net/TimingWheel.cpp:35-42 | What the minute slot held moves to the second wheel with its deadline unchanged. |
| `TimingWheels.TimingWheel.Renew` | src/network/net/TimingWheel.cpp:127-133 | Released periodic callbacks are inserted with their next deadline. |
| `TimingWheels.TimingWheel.RunAfter` | src/network/net/TimingWheel.cpp:120-123 | The callback waits for its deadline; a refused entry runs at once. |
| `TimingWheels.TimingWheel.RunEvery` | src/network/net/TimingWheel.cpp:127-133 | The periodic entry is inserted with its interval. |
| `TimingWheels.ReleasedFlat` | src/network/net/TimingWheel.h:53-67 | An entry dropped from the front slot is released if and only if no slot of any wheel still refers to it, which is when it has no later deadline. |
| `TimingWheels.InsertedFlat` | src/network/net/TimingWheel.cpp:29-86 | Inserting into the wheels adds the one deadline of the flat model and changes no other. |
| `TimingWheels.MinutePopped` | src/network/net/TimingWheel.cpp:100-101 | Rotating the minute wheel on the minute keeps every deadline. |
| `TimerModel.ReleaseLaw` | src/network/net/TimingWheel.cpp:68-116 | For every run and entry: released at a tick if and only if that tick is one of its deadlines, none is later and it never got a delay of an hour or more. |
| `TimerModel.ReleasedOnTime` | src/network/net/TimingWheel.cpp:68-116 | An entry inserted once at tick t with a delay d under an hour is released at tick t + d for d below 60 and at t - t mod 60 + d else, and at no other tick of any run. |
| `TimerModel.Due` | src/network/net/TimingWheel.cpp:29-42 | Deadlines are never late and less than a minute early, exact below a minute; from a minute on they keep the seconds of the delay. |
| `TimerModel.NeverReleased` | src/network/net/TimingWheel.cpp:100-106 | As written, an entry given a delay of an hour to 30 days is never released in any run. |
| `TimerModel.PeriodicLaw` | src/network/net/TimingWheel.cpp:127-133 | For every run: the callback of RunEvery runs at a tick if and only if it is i, 2i, ... ticks after t for an interval i below 60, or a multiple of i - i mod 60 ticks after t - t mod 60 + i else, forever. |
| `TimerModel.ShortBeats` | src/network/net/TimingWheel.cpp:127-133 | For intervals of 1 to 59 the beats are t + i, t + 2i, and so on. |
| `TimerModel.IntervalKept` | src/network/net/TimingWheel.cpp:127-133 | Among the intervals below an hour that insert at all, the beats are the multiples of the interval, from every start, if and only if it is below 60. |
| `TimingWheels.IdleCheck.constructor` | src/network/net/TcpConnection.cpp:287-293 | Enabling the check inserts the time-out entry once. |
| `TimingWheels.IdleCheck.ExtendLife` | src/network/net/TcpConnection.cpp:294-301 | The entry is inserted again if and only if it is still alive. |
| `TimerModel.IdleLaw` | src/network/net/TcpConnection.h:129-150 | For every pattern of extensions and other timers: OnTimeout runs at most once, exactly when the countdown from the last extension ends, and not while a later reference remains. |
| `TimerModel.IdleTimeout` | src/network/net/TcpConnection.cpp:287-301 | With a limit of 1 to 59 that is exactly limit ticks after the last extension. |
| `TimerModel.ExtendedTimeout` | src/network/net/TcpConnection.cpp:294-301 | An extension that finds the entry alive gives exactly limit more seconds, whatever came before. |
| `TimerModel.FirstTimeout` | src/network/net/TcpConnection.cpp:287-293 | With no extension the time-out comes limit seconds after the check was enabled. |
| `RtpVideo.RtpH264.EncodeFua` | src/mmedia/rtp/RtpH264.cpp:97-150 | The loop emits exactly the fragments specified. |
| `RtpVideo.RtpH264.EncodeSingle` | src/mmedia/rtp/RtpH264.cpp:77-96 | One packet with the NAL unit, the next number, and the marker on the last unit. |
| `RtpVideo.RtpH264.Encode` | src/mmedia/rtp/RtpH264.cpp:12-37 | The packets of an access unit, NAL unit by NAL unit, with numbers going on; an empty unit is a bare header. |
| `RtpVideo.UnitReceived` | src/mmedia/rtp/RtpH264.cpp:12-37 | For every access unit an RFC 6184 receiver gets its NAL units, whole and in order. |
| `RtpVideo.UnitSurvives` | src/mmedia/rtp/RtpH264.cpp:128-129 | They are the original ones if and only if no fragmented NAL unit has its F bit set. |
| `RtpVideo.FragmentsShaped` | src/mmedia/rtp/RtpH264.cpp:97-150 | At least two packets, all but the last of exactly 1400 bytes, with version, payload type, time stamp and SSRC in their places, consecutive numbers, S on the first only, E and marker on the last only. |
| `RtpVideo.UnitShaped` | src/mmedia/rtp/RtpH264.cpp:12-37 | Over a whole access unit numbers are consecutive, sizes within 1400, payload type, time stamp and SSRC those of the unit, and the marker is on its last packet and on last fragments, nowhere else. |
| `RtpVideo.SinglePayload` | src/mmedia/rtp/Rtp.cpp:54-71 | Version, marker, payload type, number, time stamp, SSRC and payload of a packet read back. |
| `RtpVideo.ResendRing.Add` | src/live/user/WebrtcPlayerUser.cpp:277-282 | The ring holds the newest packet of every slot. |
| `RtpVideo.ResendRing.Get` | src/live/user/WebrtcPlayerUser.cpp:289-299 | A packet is returned only under its own index. |
| `RtpVideo.RingLaw` | src/live/user/WebrtcPlayerUser.cpp:277-299 | After any number of consecutive packets the ring finds exactly the last 500. |
| `RtpVideo.RequestLaw` | src/live/user/WebrtcPlayerUser.cpp:316-345 | A 16-bit resend request finds its packet if and only if it is among the last 500 and numbered below 65536. |
| `NalBits.NalBitStream.constructor` | src/mmedia/base/NalBitStream.cpp:5-9 | The bits to be read are those of the data with every 03 after 00 00 removed, for data that does not end in such a byte. |
| `NalBits.LeavesExactly` | src/mmedia/base/NalBitStream.cpp:81-99 | Reading through the data goes past its end if and only if it ends in a 03 to be dropped. |
| `NalBits.LeavesExample` | src/mmedia/base/NalBitStream.cpp:81-99 | 00 00 03 makes it read a fourth byte. |
| `NalBits.NalBitStream.GetByte` | src/mmedia/base/NalBitStream.cpp:81-99 | The next byte of that data. |
| `NalBits.NalBitStream.GetBit` | src/mmedia/base/NalBitStream.cpp:11-19 | The next bit of that data; zeros after its end. |
| `NalBits.NalBitStream.GetWord` | src/mmedia/base/NalBitStream.cpp:21-30 | The next bits as a number, in 16 bits; zeros after the end, eight at a time. |
| `NalBits.NalBitStream.GetUE` | src/mmedia/base/NalBitStream.cpp:59-67 | For every bit string: what is returned and what is left is the value and rest of the scan, which stops at a 1 or when fewer than eight bits remain; from 31 zeros on the shift is undefined and only the rest is promised. |
| `NalBits.CodeRead` | src/mmedia/base/NalBitStream.cpp:59-67 | For every code and tail: it is read correctly and consumed exactly if and only if eight bits are left when its 1 is due and its suffix fits in 16 bits. |
| `NalBits.RestoresPayload` | src/mmedia/base/NalBitStream.cpp:81-99 | What an encoder escaped is read back unchanged. |
| `NalBits.RestIsUnescape` | src/mmedia/base/NalBitStream.cpp:88-97 | Looking at the two bytes before equals counting zeros as in clause 7.4.1. |
| `NalBits.EveryValueHasCode` | src/mmedia/base/NalBitStream.cpp:59-67 | Every number has a code, so the reader's law covers all values. |
| `TimeCorrectors.TimeCorrector.CorrectTimestamp` | src/live/base/TimeCorrector.cpp:6-113 | State and result are the correction function of the old state and the packet. |
| `TimeCorrectors.TimeCorrector.CorrectVideoByVideo` | src/live/base/TimeCorrector.cpp:53-87 | Video follows its own deltas, 40 ms for a jump; the first packet aligns with distant audio. |
| `TimeCorrectors.TimeCorrector.CorrectAudioByVideo` | src/live/base/TimeCorrector.cpp:22-52 | The first audio packet after video follows the video. |
| `TimeCorrectors.TimeCorrector.CorrectAudioByAudio` | src/live/base/TimeCorrector.cpp:88-113 | Further audio follows its own deltas, 20 ms for a jump. |
| `TimeCorrectors.VideoSteady` | src/live/base/TimeCorrector.cpp:53-87 | In every run the corrected video time moves by less than 100 per packet and is never negative. |
| `TimeCorrectors.AudioSteady` | src/live/base/TimeCorrector.cpp:22-113 | In every run the first audio packet after video lies within 100 of it, one with neither before it keeps its time, and each further one lies within 100 of its predecessor. |
| `TimeCorrectors.VideoRule` | src/live/base/TimeCorrector.cpp:53-87 | In every run a video packet is stamped with the last corrected video time plus its distance from the last one, or plus 40 if that is 100 or more; the first with its own time, or as an audio packet 100 or more away. |
| `TimeCorrectors.AudioRule` | src/live/base/TimeCorrector.cpp:22-52 | In every run an audio packet right after video is stamped relative to the video before it, a further one relative to the audio before it, 20 for a distance of 100 or more. |
| `TimeCorrectors.OthersRule` | src/live/base/TimeCorrector.cpp:6-21 | Headers and other packets are stamped 0 and change nothing. |
| `TimeCorrectors.RunRemembers` | src/live/base/TimeCorrector.cpp:22-113 | What the corrector remembers in every run: the original time of the last video and of the last audio packet. |
| `TimeCorrectors.IdentityLaw` | src/live/base/TimeCorrector.cpp:22-113 | For every run: if all consulted deltas lie in (-100, 100) the corrector changes no time stamp and, away from the 32-bit wrap, only then. |
| `Hls.HLSMuxer.OnPacket` | src/mmedia/hls/HLSMuxer.cpp:32-63 | A fragment ends before a key frame that finds it at least 3000 long, and before any packet that finds it longer than 12000, and at no other time; after every packet the window is the last five finished fragments, each at least 3000 long, numbers have no gap, the playlist lists them, every fragment object is in one place, six at most, and the current one measures from its earliest time stamp to its latest packet. |
| `Hls.HLSMuxer.Finish` | src/mmedia/hls/HLSMuxer.cpp:40-41 | The current fragment, long enough, joins the finished ones. |
| `Hls.HLSMuxer.Begin` | src/mmedia/hls/HLSMuxer.cpp:44-55 | A recycled or new fragment with the next number and no time. |
| `Hls.HLSMuxer.PlaylistShows` | src/mmedia/hls/FragmentWindow.cpp:81-116 | There is a playlist if and only if three fragments are finished; it lists the last five of all fragments ever finished, numbered from the start of the stream, under a target that covers each. |
| `Hls.FragmentWindow.AppendFragment` | src/mmedia/hls/FragmentWindow.cpp:23-31 | The window is the last five including the new one; the one that leaves is kept for reuse; the playlist follows. |
| `Hls.FragmentWindow.Shrink` | src/mmedia/hls/FragmentWindow.cpp:63-80 | The oldest fragments leave, are reset and kept for reuse; the others are untouched. |
| `Hls.FragmentWindow.UpdatePlayList` | src/mmedia/hls/FragmentWindow.cpp:81-116 | From three fragments on, the playlist lists the last five with their numbers and durations. |
| `Hls.FragmentWindow.GetIdleFragment` | src/mmedia/hls/FragmentWindow.cpp:32-45 | A recycled fragment, oldest first, or a new one. |
| `Hls.FragmentWindow.GetFragmentByName` | src/mmedia/hls/FragmentWindow.cpp:46-57 | The first fragment of that name, if there is one. |
| `Hls.TargetCovers` | src/mmedia/hls/FragmentWindow.cpp:95-101 | The target duration is the least number of seconds that covers every fragment listed. |
| `Hls.Fragment.AppendTimeStamp` | src/mmedia/hls/Fragment.cpp:9-17 | The start is the earlier of the old one and the new time stamp, the duration the distance from it. |
| `Hls.StartIsEarliest` | src/mmedia/hls/Fragment.cpp:9-17 | After any list of time stamps, in any order, the start is the least of them. |

## Left out

Preconditions that the code does not check, and why they are there:

- RtmpOutputs.RtmpOutput.PushOutQueue: needs the end of a batch chunked at once to be inside the arena; so do PushFrames, Send, CheckAndSend and OnWrite for the batch they chunk, and BuildChunk for its message. What the code overwrites behind the array otherwise is not modelled. `CompactFits` is a sufficient check by message.
- RtmpRoundTrip.RoundTrip: needs header numbers below 0xFFFFFF, and fmt 0 or 1 for empty messages; `AnyRun` and `TimestampSurvives` have the rest.
- RtmpAnyHeaders.AnyRun: needs every message to say its length and not to confuse the parser; after one that does not, the bytes of later messages are read at the wrong places, and what they deliver is not described.
- TimingWheels.TimingWheel.InsertEntry: excludes delay 0 and multiples of a minute below an hour, for which `AccessesExist` shows a slot that does not exist; so do RunAfter, RunEvery and the idle check.
- TimingWheels.TimingWheel.RunEvery: needs an interval of at most 30 days. A longer one is refused by the wheels, so its entry is dropped, whose destructor calls the callback and RunEvery again, without end.
- NalBits.NalBitStream.constructor: excludes data that ends in a dropped 03, where the code reads past the end (`LeavesExactly`); what it finds there is not modelled.
- NalBits.NalBitStream.GetUE: promises no value from 31 leading zeros on, where the shift is undefined; `CodeRead` treats the power of two as unbounded.
- PsiWriters.PsiWriter.WriteSection: needs the section to fit its 1024-byte array.
- TsDemux.PacketRead: is about 13-bit pids.
- TimeCorrectors.IdentityLaw: the reverse direction excludes the last 40 ms before 32-bit time stamps wrap, where an uncorrected jump can coincide with a correction.

Not modelled:

- The handshake, AMF, commands, acknowledgement windows and `SendBytesRecv`: connection set-up and control text.
- The lvalue `BuildChunk` (src/mmedia/rtmp/RtmpContext.cpp:334-488): its test `!prev` makes it dereference a null pointer on the first use of a stream without fmt 0 and emit fmt 0 ever after; the chunks are those of the rvalue form with fmt 0.
- That the caller's buffer outlives the waiting bytes of a plain send; the byte in front of it is a parameter.
- The call of `ExtendLife` in `OnWrite`; `IdleCheck` covers any pattern of such calls.
- Retrying `writev` after EINTR is left to the next writable event, as the code does; errors close the connection.
- Overlapping `std::copy` in `MsgBuffer` is taken to move bytes as `memmove` does; `RetrieveUntil`, `Swap` and the integer helpers only combine the operations modelled.
- MP3 frames, which go to the PES loop as they are.
- Reading the sequence header, B-frame detection, and Annex B input (`DecodeAVCNaluAnnexb`).
- Waking the players (`ActiveAllPlayers`, after each of the first 300 packets and then every fifth): players may post at any time here.
- The counters of `GopMgr` about GOP lengths, and log-only state such as `wait_timeout_`.
- Live time stamps are unbounded integers: 32-bit overflow of their differences is not modelled there.
- Callbacks of `RunAfter` that insert timers themselves while a wheel is being rotated; fractional delays are integers here.
- The 32-bit wrap of RTP sequence counters, SPS/PPS aggregation packets, RTCP, SRTP.
- Playlist text: a playlist is its target duration, first number and entries; file names are numbers from the clock, and fragment contents and file output are not modelled. A reader that still holds a recycled fragment is not either.
- Fragment durations are unbounded integers.
- Sockets, threads, locks, DNS, logging, configuration, HTTP, SDP, STUN, DTLS: plumbing around the core.
