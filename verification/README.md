# chromecast-sink: verified models of its concurrent core

chromecast-sink captures a desktop's audio and casts it to a Chromecast. Samples go from a realtime
sink thread through a lock-free ring to the capture loop, which encodes 10 ms frames and sends them
as encrypted Cast RTP; a second thread answers the receiver's NACKs out of a 120-slot history. A
third thread owns the TLS connection that carries the control protocol. This project models these
parts and proves what they keep over every input, every interleaving and every run.

| files | part of the program | main results |
|---|---|---|
| `RingMachine.dfy`, `AudioRing.dfy` | `src/audio_ring.rs` | torn-read freedom under weak memory; every run refines an unbounded log with a cursor; the wrapping, masked code, with stale loads, refines that machine |
| `Rtcp.dfy` | feedback side of `src/cast_rtp.rs` | the NACK parser equals a declarative reading of the compound packet; what splits is exactly what is printed, and feedback printed among any other blocks is read back; 8-bit IDs expand back to what was truncated, across the 32-bit wrap |
| `RtpPacket.dfy`, `RtpSender.dfy` | sending side of `src/cast_rtp.rs` | over runs of any length, with feedback arriving at any moment of a send, every retransmission is the first transmission again and recorded at least 20 ms after the one before; exactly which of them a receiver that knows IDs within 128 of its newest misreads; every payload byte on the wire is under the keystream of its own frame and place, and two are under the same only in frames 2^32 apart; the history window is exact except right after the 32-bit wrap |
| `Varint.dfy`, `CastMessage.dfy`, `Framing.dfy`, `Dispatcher.dfy` | `src/cast_channel.rs` | codec round trips, protobuf merging, independence from TCP chunking, end-to-end delivery, buffer bound; exactly when the wire keeps its framing and when a session ends |
| `Capture.dfy` | `src/capture.rs` | conservation of frames over the ring and the sender; every way the loop ends, exactly; recovery after a lap, and exactly which pass drains |
| `Teardown.dfy` | `src/pipeline.rs`, `src/mirroring.rs`, `src/cast_channel.rs` | every fair teardown ends with both threads joined and the farewells written; the other join order deadlocks |
| `Words.dfy` | | machine words, bit operations and powers of two on unbounded integers |

How the ring's proof is put together. `RingMachine` is a step machine whose slot loads may return
any sample stored so far over the slot, whose `write` loads may be stale, and whose `reserved` load
is bounded below only by the batches whose samples the copy saw and by earlier loads: what the
release and acquire orderings promise and no more. `AudioRing` is the class as the program has it,
with wrapping word indices and a masked slot array. Each of its atomic locations is a modification
order, and each load of the reader returns any value that its view of the other thread allows. Its
methods run with arbitrary accesses of the producer thread and an arbitrary pick of the value
before each of their own loads and carry along a ghost machine that takes one step per atomic
access; so a method's contract speaks about every interleaving and every stale value and inherits
the machine's theorems. `Capture` is proved over that class, not over an idealised ring.

The sender, the dispatcher and the capture loop are classes whose methods are proved equal to a
step function of their abstract state, or to the invariant the next turn needs; the theorems about
runs are lemmas about those step functions, or the contract of the method that runs the loop.

`dafny verify dfyconfig.toml` checks the project. Nothing here is executed.

## Where the code differs from the obvious

- 120 does not divide 2^32. In the first 119 sends after the 32-bit frame ID wraps, two of the
  last 120 frames share a history slot (`RtpSender.WindowExactIff`), and what a slot holds is up to
  135 frames old. The receiver that `src/cast_rtp.rs:24` describes expands a frame ID within 128 of
  its newest and takes anything older for another frame (`RtpPacket.NearestIff`). The history, which
  is there to prevent that, holds a frame that old exactly from the 10th to the 119th send after a
  wrap (`RtpSender.SlotOlderIff` at an age of 128); `RtpSender.StaleResendIsMisread` is a run that
  ends with frame 2^32 - 120 resent and read as frame 136. Everywhere else every resend is recovered
  (`RtpSender.RunSafety`).
- `send_frame` puts a packet on the wire before it takes the lock to record it. A resend served in
  between can be of the frame that the record is about to replace: 120 frames old clear of the
  wrap, 136 across it.
- `read_varint` drops the bits of a tenth byte above 2^64. What it returns is what the bytes spell if
  and only if fewer than ten bytes are read or the tenth is below 2 (`Varints.ReadIsExactIff`).
- `write_message` prints bodies of any size, while `take_frame` refuses more than 65536 bytes. A list
  of bodies survives the framing if and only if all are within the limit (`Framing.FramingExactIff`).
  The prefix holds the length modulo 2^32, so that a body of 2^32 bytes or more can be read as a
  shorter one and what its remaining bytes spell (`Framing.OversizedBodyFails`).
- The comment at `src/cast_channel.rs:258` says that any write error kills the dispatcher because a
  partial write corrupts the framing. A PING or PONG that fails to be written is ignored, and the
  drain after the loop goes on after a torn message; `Dispatcher.TornPingIsFollowed` and
  `Dispatcher.TornMessageIsFollowed` are such runs. Of all failed writes only that of an enqueued
  message ends the loop (`Dispatcher.FailedWriteEnds`), and the wire keeps its framing if and only
  if nothing goes out after a torn write (`Dispatcher.WireTornIff`).
- After a lapped read the pass that finds the lapping batch published need not be the one that
  drains: an earlier one can have drained at an older `write`. `Capture.DrainCanComeEarly` is such a
  run of the ring; `Capture.DrainsIff` is the exact condition, in terms of where the last drain saw
  `write` and the frames read since. `Capture.LapIsDrained` is what holds always.
- The wrapped lap check overlooks a reader that is a whole word behind
  (`AudioRing.LapCheckOnWords`).
- A read checked against `write` alone would tear (`RingMachine.WriteAloneWouldTear`), which is why
  `reserved` exists.
- A call of `write_s16le` with more than `capacity` frames advances the index by `capacity` only;
  the stream receives the kept suffix.
- A read refused at its start leaves `out` alone. One that fails at the lap check has overwritten
  it; only the index and the stream are unchanged.
- The resend interval is measured from the times the program records, and a resend records a time
  taken before it is handed to the socket.

## Model

| member | source | states |
|---|---|---|
| RingMachine.TornReadFreedom | src/audio_ring.rs:97-108 | if the lap check passes against any value of `reserved` the memory model allows, the copied samples are exactly the requested stretch of everything written, although batches were in flight and slots were overwritten during the copy |
| RingMachine.ReadOutcomes | src/audio_ring.rs:86-109 | a read is refused at its start only for an empty request or too little published, at its end only if more than a whole lap is reserved, and then nothing moved; otherwise it delivers the next samples of the log |
| RingMachine.RunsRefineTheLog | src/audio_ring.rs:55-117 | after any run, all samples delivered are those a reader with an unbounded log and a cursor gets from the same takes and drops, and read <= write <= stored <= reserved <= write + capacity |
| RingMachine.StepInv | src/audio_ring.rs:55-117 | every atomic access of either thread keeps the invariant, including a copy in progress |
| RingMachine.RunInv | src/audio_ring.rs:55-117 | so does every interleaving |
| RingMachine.BatchLeads | src/audio_ring.rs:61-84 | a batch of any size within the capacity, access by access, is a run that appends and publishes it, from any state with an idle producer |
| RingMachine.LoadSlotInv | src/audio_ring.rs:98-100 | each sample copied so far came from its own position or whole laps later, out of a batch whose end bounds the coming load of `reserved` from below |
| RingMachine.WriteAloneWouldTear | src/audio_ring.rs:13-14 | a run in which checking `write` instead of `reserved` would deliver a sample of the batch in flight |
| RingMachine.ReplayIgnoresNewSamples | src/audio_ring.rs:61-84 | what was delivered is never affected by later writes |
| AudioRing.AudioRing.constructor | src/audio_ring.rs:20-40 | an empty ring of power-of-two sizes starts in the machine's initial state |
| AudioRing.AudioRing.BeginWrite | src/audio_ring.rs:61-78 | reserves room for the newest whole frames of the argument before any slot is touched, or does nothing if there is none |
| AudioRing.KeptIsTail | src/audio_ring.rs:62-71 | the two slicings of an oversized argument keep exactly its newest `capacity` whole frames |
| AudioRing.KeptAreTheSamples | src/audio_ring.rs:61-82 | whatever samples are handed over, as little-endian byte pairs in whole frames and with part of a frame after them, the newest frames that fit are kept, sample by sample as they were |
| AudioRing.AudioRing.StoreSample | src/audio_ring.rs:79-82 | the masked, wrapped slot index overwrites the slot of the next log position and appends the sample to the log |
| AudioRing.AudioRing.StoreBatch | src/audio_ring.rs:79-82 | the loop appends the whole batch, sample by sample, and publishes nothing |
| AudioRing.AudioRing.FinishWrite | src/audio_ring.rs:83 | publishes all that was reserved |
| AudioRing.AudioRing.WriteS16le | src/audio_ring.rs:61-84 | one call is the run of all its accesses: it appends the kept samples to the log and advances `write` by their frames; the reader's side is untouched |
| AudioRing.WholeCallAppends | src/audio_ring.rs:61-84 | the accesses of a whole call, in whatever schedule of the reader they run, append what is kept of its argument and reserve just that, or do nothing if nothing is kept |
| AudioRing.CallsAppend | src/audio_ring.rs:61-84 | after any sequence of calls the log is what they kept, in order, and nothing else |
| AudioRing.AudioRing.Interfere | src/audio_ring.rs:61-84 | any accesses of the producer thread are exactly their steps of the machine, in order; they keep the ring valid, only extend the log, and reserve at most one capacity each |
| AudioRing.AudioRing.Perform | src/audio_ring.rs:61-84 | one access of the producer is one machine step if the thread has reached it, else nothing |
| AudioRing.RanThen | src/audio_ring.rs:61-84 | stretches of producer accesses compose, whatever the reader did in between |
| AudioRing.AudioRing.AvailableFrames | src/audio_ring.rs:55-59 | the difference, modulo the word, of the read index and any value of `write` the reader may still load, whatever ran before; never an older one than before; nothing is consumed |
| AudioRing.AudioRing.SkipFrames | src/audio_ring.rs:111-116 | the cursor moves by the smaller of the request and what the loaded `write` publishes, never past it, and the dropped stretch is recorded |
| AudioRing.AudioRing.SkipNow | src/audio_ring.rs:112-115 | its loads and its store are one step of the machine, for any value of `write` still to be loaded |
| AudioRing.AudioRing.ReadFrames | src/audio_ring.rs:86-109 | under every schedule of the producer and every stale load: succeeds exactly when the request is not empty, the loaded `write` covers it and the loaded `reserved` is no lap ahead; then delivers the next stretch of the log; otherwise moves nothing, and leaves `out` alone if refused at its start; a load picked past the end of an order returns the newest value; the producer's side is that of running the accesses scheduled up to the end of the read |
| AudioRing.AudioRing.CopySlots | src/audio_ring.rs:97-100 | the copy loop takes one machine load per sample, stale or not, whatever the producer does in between |
| AudioRing.AudioRing.Load | src/audio_ring.rs:99 | any store to the masked slot from the last one the acquired `write` published is a load the machine allows, and for each of them there is a pick with which it is returned |
| AudioRing.AudioRing.EndOfRead | src/audio_ring.rs:103-108 | succeeds exactly when the `reserved` it loads, any value not older than the batches copied or an earlier load, is at most a capacity beyond the cursor; what was copied is then the log |
| AudioRing.AudioRing.CheckLap | src/audio_ring.rs:104-108 | the load, of any value of `reserved` not older than those seen, the wrapped comparison and the store are the machine's last step of a read |
| AudioRing.AudioRing.SlotOf | src/audio_ring.rs:78-99 | wrapping addition and masking compute the unbounded position modulo the number of slots |
| AudioRing.LapCheckOnWords | src/audio_ring.rs:104 | for any true lag, the wrapped check agrees with the unbounded one if and only if the lag is within capacity or still exceeds it after wrapping; a lag of one word goes unnoticed |
| AudioRing.LoadCellStep | src/audio_ring.rs:98-100 | loading the cell of a position, or one of a later lap, is a step of the machine and raises what the reader knows of `reserved` to that cell's batch |
| AudioRing.CellKnown | src/audio_ring.rs:79-99 | of the stores published by `write`, the last to a slot about to be read is that of the wanted position or of a later lap |
| AudioRing.KeepAll | src/audio_ring.rs:79-82 | a masked slot holds the stores of every position that maps to it, in order, and no others |
| AudioRing.FinishStep | src/audio_ring.rs:104-107 | the wrapped comparison and index update are the machine's last step of a read, for any admissible `reserved` |
| AudioRing.LoadedWrite | src/audio_ring.rs:56-58 | on words, a stale `write` is never behind the read index and the wrapped difference is the true one modulo the word |
| Words.AndMask | src/audio_ring.rs:78-80 | `& (2^k - 1)` is the remainder by 2^k |
| Words.BitsOf | src/cast_rtp.rs:120-122 | and, or and exclusive or do to the bit at any place what they should |
| Words.Digits | src/cast_rtp.rs:119 | a big-endian byte string has as its byte at any place that digit of its value |
| Words.WordsAreBigEndian | src/cast_channel.rs:309 | the 32-bit conversions are that value and each other's inverse |
| Words.HalfwordsAreBigEndian | src/cast_rtp.rs:338 | so are the 16-bit ones |
| Rtcp.ExpandLeUnique | src/cast_rtp.rs:320-323 | `expand_le` returns the one ID with the given low byte among the 256 ending at `max`, counting modulo 2^32 |
| Rtcp.ExpansionRoundTrip | src/cast_rtp.rs:354-365 | a checkpoint at most 255 behind the newest frame and a loss at most 256 past it are recovered exactly from their low bytes, across the wrap |
| Rtcp.SignedReads | src/cast_rtp.rs:356 | the 32-bit pattern of a number in range, read as two's complement, is the number |
| Rtcp.SignedOrder | src/cast_rtp.rs:356 | the wrapping signed comparison of two checkpoints orders them by how far they lie behind `last_sent` |
| Rtcp.BlocksIff | src/cast_rtp.rs:331-341 | the compound packets that split are exactly the printed lists of blocks, of any types and lengths, and each splits into just the blocks printed |
| Rtcp.ParseNackedFrames | src/cast_rtp.rs:328-373 | the parsing loop, on every byte string, returns what the declarative reading of the compound packet says |
| Rtcp.CollectLosses | src/cast_rtp.rs:364-370 | the loss-field loop lists the frames reported lost whole or in packet 0 |
| Rtcp.NackedFramesMeaning | src/cast_rtp.rs:325-373 | that reading: nothing for a compound that does not split or holds a voiding block, otherwise the losses of the feedback for this SSRC with the nearest checkpoint, the last among equals |
| Rtcp.ActingIsYoungestLast | src/cast_rtp.rs:356-360 | which feedback acts: the youngest checkpoint and the last of those, if and only if |
| Rtcp.LossesNearCheckpoint | src/cast_rtp.rs:354-365 | every reported frame lies 1 to 256 past a checkpoint that is within 255 behind `last_sent` |
| Rtcp.NackRoundTrip | src/cast_rtp.rs:328-373 | one feedback alone that lists whole frames parses back to its list |
| Rtcp.CompoundRoundTrip | src/cast_rtp.rs:328-373 | printed among any other blocks in any order, with loss fields for any packets, the newest feedback on our stream is acted on: the frames of which packet 0 or everything is missing, in order; older feedback, also if it overstates its losses, and blocks for others change nothing |
| Rtcp.BadBlockVoids | src/cast_rtp.rs:345-353 | one feedback block that is too short, or on our stream without the letters CAST, voids the compound wherever it stands |
| Rtcp.OverstatedVoids | src/cast_rtp.rs:356-363 | so does one on our stream that announces more loss fields than it has room for, unless newer feedback stands before it |
| RtpPacket.ComputeNonce | src/cast_rtp.rs:116-124 | the xor loop computes the masked big-endian nonce |
| RtpPacket.NonceIsXor | src/cast_rtp.rs:116-124 | as a 128-bit number the nonce is the IV mask xor the frame ID shifted by 32 bits |
| RtpPacket.CountersDistinct | src/cast_rtp.rs:116-132 | two (frame, block) pairs with the same 128-bit counter are the same pair, for any mask, also where the counter wraps |
| RtpPacket.EncryptTwice | src/cast_rtp.rs:126-132 | applying the keystream of a frame twice gives the plaintext back |
| RtpPacket.PayloadOnWire | src/cast_rtp.rs:126-132 | every payload byte on the wire, for any payload, frame, mask and block function: byte `i` under byte `i % 16` of the block whose counter is the mask xor the shifted ID of this frame, plus `i / 16`, modulo 2^128 |
| RtpPacket.StreamsMeetIff | src/cast_rtp.rs:116-132 | two payload bytes on the wire are under the same keystream byte for every block function if and only if they are at the same place of frames with the same ID |
| RtpPacket.NearestIff | src/cast_rtp.rs:24 | a receiver that expands a low byte to the nearest ID gets the true ID if and only if it is at most 128 behind or 127 ahead of its newest, counting modulo 2^32 |
| RtpPacket.PacketRecovers | src/cast_rtp.rs:134-159 | the header names version, payload type, stream, sequence number and timestamp and marks packet 0 of 0, and a receiver recovers frame ID and payload if and only if the frame is within 128 of its newest |
| RtpSender.WindowExactIff | src/cast_rtp.rs:81-94 | a lookup finds exactly the last 120 frames if and only if the sender is not within 119 sends after a 32-bit wrap |
| RtpSender.HistoryLookup | src/cast_rtp.rs:81-94 | after any run a lookup finds nothing but the frame last recorded with that ID, at most 135 frames before the newest recorded, as first sent; and clear of the 32-bit wrap it finds it exactly if it is among the last 120 |
| RtpSender.SlotAge | src/cast_rtp.rs:81-94 | after any number of sends a slot holds a frame of the last 120, or, if the pass after a wrap has not come to it yet, one whose age is given exactly and is at most 135 |
| RtpSender.SlotOlderIff | src/cast_rtp.rs:24-94 | for any age from 119 to 134, some slot holds an older frame if and only if the sender is in a given stretch of sends after a wrap; for 128, which the history is there to keep to, from the 10th to the 119th |
| RtpSender.StaleResendIsMisread | src/cast_rtp.rs:24 | a run of sends and one feedback whose last datagram carries a frame 135 behind, read by the receiver as a frame not yet sent |
| RtpSender.RunTracks | src/cast_rtp.rs:161-173 | over any run of any length the history is that of consecutive sends: failures leave no gap, resends leave IDs alone |
| RtpSender.RunInv | src/cast_rtp.rs:161-318 | every datagram, every stored packet and the one about to be stored is genuine and spaced, after every run of sends, failures, records and feedback of any length |
| RtpSender.RunSafety | src/cast_rtp.rs:161-318 | over runs of any length: datagrams that carry the same frame are identical and recorded at least 20 ms apart; each carries a frame at most 135 old, 119 clear of the wrap, and one more in the middle of a send; a receiver that has the newest frame or any since recovers it if and only if it is at most 128 behind, which is always so outside the stretch after a wrap; every frame counted did leave |
| RtpSender.KeyStreamUsedOnce | src/cast_rtp.rs:116-173 | over runs of any length, two payload bytes on the wire are under the same keystream byte for every block function if and only if they are at the same place of frames a multiple of 2^32 apart; so up to 2^32 frames it is the same byte of the same packet |
| RtpSender.CountersUsedOnce | src/cast_rtp.rs:116-173 | the same for the counters of whole blocks |
| RtpSender.ResendsExactly | src/cast_rtp.rs:302-316 | a feedback resends a frame if and only if it is asked for, in the history, due and gets through; once, as stored, at the time of the feedback |
| RtpSender.DatagramResends | src/cast_rtp.rs:289-317 | a whole datagram: if it is not from the peer or nothing is recorded yet, nothing happens; otherwise a frame is resent if and only if it is among all the frames the feedback lists, in the history, due, and gets through; once, as stored; its slot takes the time and nothing else changes |
| RtpSender.DueAfterRecord | src/cast_rtp.rs:87-94 | a frame just recorded is due for a resend from exactly 20 ms after its record on |
| RtpSender.OctetsCounted | src/cast_rtp.rs:169-171 | after any run the octet counter is the payload bytes of the frames sent, modulo 2^64, resends not included |
| RtpSender.FailuresAreInvisible | src/cast_rtp.rs:165-166 | a run is the same as the run without its failed sends: what was sent, resent and recorded does not depend on them |
| RtpSender.History.constructor | src/cast_rtp.rs:73-79 | an empty history |
| RtpSender.History.GetMut | src/cast_rtp.rs:81-85 | the slot's entry, if it is for that frame |
| RtpSender.History.Record | src/cast_rtp.rs:87-94 | the slot of the frame is replaced and no other |
| RtpSender.CastRtpSender.constructor | src/cast_rtp.rs:98-114 | a new sender is the empty run |
| RtpSender.CastRtpSender.SendFrame | src/cast_rtp.rs:161-173 | a call contributes its transmission, the datagrams served meanwhile and its record to the run, or only the failed transmission; the object stays where the run machine is, so every theorem about runs holds of it |
| RtpSender.CastRtpSender.TransmitFrame | src/cast_rtp.rs:162-166 | up to the socket call: one event of the run, which leaves the frame ID alone |
| RtpSender.CastRtpSender.RecordFrame | src/cast_rtp.rs:167-171 | from the lock on: one event of the run, which advances the frame ID |
| RtpSender.CastRtpSender.ServeDatagram | src/cast_rtp.rs:289-317 | one datagram of any bytes from anywhere, at any moment of a send, is one event of that run |
| Varints.WriteVarint | src/cast_channel.rs:346-352 | appends the base-128 form, for every u64 |
| Varints.Read | src/cast_channel.rs:387-405 | on every byte string and position: succeeds exactly if a terminator is among the ten bytes there, with the value they spell modulo 2^64 and the exact new position |
| Varints.OneMoreByte | src/cast_channel.rs:394-396 | masking, shifting and or-ing in a byte is addition modulo 2^64; bits can be lost only at the tenth |
| Varints.VarintRoundTrip | src/cast_channel.rs:346-405 | a written value followed by any bytes reads back as itself at the position after it |
| Varints.VarintMinimal | src/cast_channel.rs:346-352 | no byte string that reads as the value is shorter, and none is longer than ten bytes |
| Varints.ReadIsExactIff | src/cast_channel.rs:394-403 | reading returns what the bytes spell if and only if fewer than ten are read or the tenth is below 2 |
| Varints.TenthByteTruncates | src/cast_channel.rs:394-403 | so two ten-byte strings that differ in a dropped bit read the same |
| CastMessages.WriteString | src/cast_channel.rs:354-359 | appends key, length and bytes |
| CastMessages.WriteVarintField | src/cast_channel.rs:361-365 | appends key and value |
| CastMessages.EncodeCastMessage | src/cast_channel.rs:376-385 | prints the six fields in order |
| CastMessages.MessageFields | src/cast_channel.rs:376-385 | what is printed, read back field by field: version 0 as field 1, source, destination, namespace, payload type 0 as field 5, payload |
| CastMessages.FieldsRoundTrip | src/cast_channel.rs:354-405 | any list of fields, of any tags, numbers and strings, is read as printed |
| CastMessages.Malformed | src/cast_channel.rs:414-443 | a field of another wire type, or a string that claims more bytes than there are, fails |
| CastMessages.DecodeCastMessage | src/cast_channel.rs:407-449 | the parsing loop terminates on all bytes with the field-by-field result |
| CastMessages.DecodeMeaning | src/cast_channel.rs:414-448 | parsing succeeds exactly on well-formed fields; each string is the last field of its tag and every other field is ignored |
| CastMessages.DecodeMerges | src/cast_channel.rs:414-441 | a fully parsed message followed by more bytes is those bytes parsed on top of it |
| CastMessages.CodecRoundTrip | src/cast_channel.rs:376-449 | parsing a printed message of valid UTF-8 strings gives it back |
| CastMessages.LaterMessageWins | src/cast_channel.rs:431-436 | of two printed messages in a row the second remains |
| Framing.ChunkingIndependent | src/cast_channel.rs:204-319 | any split of any bytes into reads yields the same bodies, the same verdict and the same leftover as parsing them in one piece |
| Framing.DrainAppend | src/cast_channel.rs:305-319 | bytes that arrive later change no frame already taken and no error already found |
| Framing.WireDrains | src/cast_channel.rs:305-332 | framed bodies within the limit come out whole and in order with nothing left over |
| Framing.FramingExactIff | src/cast_channel.rs:305-332 | a list of framed bodies comes out whole, in order and with nothing left over if and only if every body is within the limit |
| Framing.OversizedBodyFails | src/cast_channel.rs:305-332 | for bodies of any size: a framed body ends the session of whoever reads it, at its header, exactly if its length modulo 2^32 is over the limit; otherwise that many of its bytes are a frame and the rest is parsed next |
| Framing.BufferBound | src/cast_channel.rs:309-316 | what waits for more data is at most 65539 bytes |
| Framing.FeedBound | src/cast_channel.rs:199-236 | over any stream the buffer holds at most 65539 bytes after draining and 73731 with the next read |
| Dispatcher.EndToEnd | src/cast_channel.rs:228-256 | however TCP splits a list of framed messages, exactly the ones that are not heartbeats are forwarded in order, and each PING is answered once, from us, to its source, with a PONG on the same namespace |
| Dispatcher.HandlesEncoded | src/cast_channel.rs:237-255 | printing and handling cancel: forwards and answers are those of the messages themselves |
| Dispatcher.HandlesDecoded | src/cast_channel.rs:237-255 | on any wire what is forwarded and answered is that of the bodies that decode, one answer for each PING, addressed to its source |
| Dispatcher.HeartbeatExchange | src/cast_channel.rs:276-285 | our PING, read by a dispatcher at the platform receiver, is answered by one PONG to us, which is neither answered nor forwarded |
| Dispatcher.FeedSnoc | src/cast_channel.rs:205-236 | one more read drains what was left plus that read |
| Dispatcher.HandleMeaning | src/cast_channel.rs:228-256 | handling bodies forwards the messages that are not heartbeats and tries one PONG for each PING, in order, and nothing else |
| Dispatcher.OutboundMeaning | src/cast_channel.rs:258-274 | enqueued messages are tried once each, first in first out; afterwards the stop flag is up exactly if it was, all callers are gone or a write of theirs failed, and nothing waits unless one did |
| Dispatcher.FlushStops | src/cast_channel.rs:294-300 | the drain after the loop tries messages up to its first failed write and leaves some behind only then |
| Dispatcher.TurnMeaning | src/cast_channel.rs:204-292 | one turn: what it reads and tries, exactly when it gets to its writes, and exactly when the session is over; after the writes the stop flag is up exactly if all callers are gone or an enqueued message failed to be written |
| Dispatcher.TurnInOrder | src/cast_channel.rs:228-285 | a turn answers what it has read, then writes what is enqueued, then the heartbeat |
| Dispatcher.LoopInv | src/cast_channel.rs:204-292 | the same over any turns |
| Dispatcher.SessionMeaning | src/cast_channel.rs:193-302 | whole sessions on any wire: forwards and answers are those of the reads made, every enqueued message is tried once in order or still waits, every PING due is tried, and the session ends at the first turn with a reason, which is named |
| Dispatcher.SessionEndToEnd | src/cast_channel.rs:193-302 | if what was read is a list of framed messages, the session forwards exactly those that are not heartbeats and tries one PONG for each PING, addressed to its source |
| Dispatcher.FailedWriteEnds | src/cast_channel.rs:258-266 | the loop ends at the head of the next turn, before anything else is read or written, if and only if an enqueued message failed to be written; a failed PING or PONG never ends it |
| Dispatcher.WireTornIff | src/cast_channel.rs:321-332 | the wire is the whole frames in order and at most one torn tail if and only if nothing went out after a torn write |
| Dispatcher.PeerReads | src/cast_channel.rs:305-332 | the peer then takes off and decodes exactly the messages written whole and waits on the torn tail |
| Dispatcher.TornPingIsFollowed | src/cast_channel.rs:276-285 | a session in which a message follows a torn PING |
| Dispatcher.TornMessageIsFollowed | src/cast_channel.rs:294-300 | a session in which the drain after the loop writes past a torn message |
| Dispatcher.Connection.WriteMessage | src/cast_channel.rs:321-332 | one write, of a whole frame or a prefix of it, with or without an error |
| Dispatcher.Connection.TakeFrame | src/cast_channel.rs:305-319 | two drains of the buffer take off one frame; the buffer is untouched if there is none |
| Dispatcher.Connection.HandleBody | src/cast_channel.rs:237-255 | a body is forwarded, answered or dropped |
| Dispatcher.Connection.DrainFrames | src/cast_channel.rs:228-256 | the inner loop handles all frames there are, in order, and leaves the rest |
| Dispatcher.Connection.ReceiveBytes | src/cast_channel.rs:205-256 | one read is one step of the session, and the buffer never exceeds 73731 bytes |
| Dispatcher.Connection.DrainQueue | src/cast_channel.rs:258-274 | the loop over enqueued messages is the outbound step |
| Dispatcher.Connection.FlushQueue | src/cast_channel.rs:294-300 | the drain after the loop is the flush step |
| Dispatcher.Connection.Pass | src/cast_channel.rs:204-292 | one turn of the loop is one turn of the session |
| Dispatcher.Connection.Serve | src/cast_channel.rs:193-302 | the thread makes the session that the theorems are about, over any turns and any outcomes of writes |
| Capture.ConsumedIsConserved | src/capture.rs:71-131 | every frame index consumed is 480 for a frame sent, not sent or refused by the encoder, or part of a counted drop |
| Capture.FramesForMsIff | src/capture.rs:26-28 | the most frames that take no longer than the given time: one frame of the encoder for the target of 10 ms, three for the threshold of 30 ms |
| Capture.LapExceedsHeadroom | src/capture.rs:36-91 | with a capacity that passes the startup assertion, a read fails only if more than one quantum and one frame were reserved beyond the `write` seen |
| Capture.LapsUntilDrain | src/capture.rs:69-91 | after a lapped read every pass laps again at the same index until one drains; nothing is delivered or waited for in between |
| Capture.LapIsDrained | src/capture.rs:69-91 | by the first pass that sees the lapping batch published a pass has drained, with nothing but laps before it |
| Capture.DrainsIff | src/capture.rs:69-91 | a pass that sees the lapping batch published is one that drains if and only if none has drained since the lap, or `write` has moved on from where the last drain saw it by more than 20 ms and the frames read since |
| Capture.DrainCanComeEarly | src/capture.rs:69-91 | a run of the ring, access by access, in which one pass laps, the next drains at an older `write`, and the one that sees the lapping batch published reads a frame |
| Capture.DrainLeavesOneFrame | src/capture.rs:71-87 | a drain leaves one frame of what it saw, so the next pass does not wait |
| Capture.OutageSnoc | src/capture.rs:103-127 | the outage kept is the start and length of the current maximal streak of failures; a success clears it |
| Capture.StreakIsMaximal | src/capture.rs:103-127 | the streak is maximal |
| Capture.Note | src/capture.rs:52-131 | counters, outage, read index and sent payloads stay those of the passes made |
| Capture.NoteFatal | src/capture.rs:127-130 | the five-second test on the outage kept is the test on the whole history of tries |
| Capture.FatalIff | src/capture.rs:115-130 | without counting: the run is given up exactly if some try began an unbroken row of failures up to now and the latest came five seconds after it or later |
| Capture.FinalBooks | src/capture.rs:62-147 | what the verdict on every pass says about the run |
| Capture.Loop.constructor | src/capture.rs:36-59 | the loop starts with empty books |
| Capture.Loop.SkipNegotiation | src/capture.rs:51-52 | the loop starts exactly at a value of `write` that was published by the first load, never an older one than seen before, and the newest if that load returns it |
| Capture.Loop.DrainBacklog | src/capture.rs:71-80 | the drain takes all it counts: the clamp in `skip_frames` never bites |
| Capture.Loop.ReadAndSend | src/capture.rs:89-132 | a whole frame of the ring's log is encoded and sent, or lapped |
| Capture.Loop.ServeNacks | src/cast_rtp.rs:281-318 | datagrams served meanwhile are so many events of the sender's run, in order, and change neither the frame ID nor the frames sent |
| Capture.Loop.SendAndCount | src/capture.rs:103-132 | the send and its accounting |
| Capture.Loop.Pass | src/capture.rs:62-132 | one pass keeps the books and ends the loop for exactly the reasons the source has: a stop, a sink seen closed, a refused frame, a fatal outage |
| Capture.Loop.Run | src/capture.rs:62-151 | whatever the producer, the NACK thread, the encoder and the network do: read index = start + 480 * (frames + send failures + a refused frame) + dropped, the sender's frame ID advances by the frames sent, its run goes on by exactly the datagrams and sends of the turns, and the loop ends at the first turn told to stop or finding the sink closed, at the first frame the encoder refuses, and on sending exactly when the current streak of failures spans five seconds, which no earlier streak did |
| Teardown.StepInv | src/pipeline.rs:160-164 | every step of the three threads keeps who may be where, and what is enqueued equals what is written plus what waits |
| Teardown.RunInv | src/pipeline.rs:160-164 | so does every run |
| Teardown.MonitorMeaning | src/pipeline.rs:176-190 | over any run the monitor takes what was forwarded, in order, and ends the session exactly at the first message that closes it, or once the dispatcher is gone and none of what it forwarded does |
| Teardown.HeadIff | src/cast_channel.rs:204-226 | at the loop's head anything may be read until the stop flag is up, and then nothing |
| Teardown.LoopEndsIff | src/cast_channel.rs:204-292 | what ends the dispatcher's loop: a failed or broken read, a silent peer, and the flag at its head, and only these |
| Teardown.OutboundDrained | src/cast_channel.rs:258-274 | the writes of a turn end only when nothing waits or one has failed, which raises the flag |
| Teardown.DrainedHowever | src/cast_channel.rs:294-300 | however the loop ended, what had been enqueued by then is written, in order, unless a write failed |
| Teardown.AtMostTwoLost | src/cast_channel.rs:258-300 | whatever fails, the farewells are enqueued while the dispatcher is there, and at most two enqueued messages are neither written nor still waiting |
| Teardown.FarewellsWritten | src/mirroring.rs:72-80 | if the dispatcher ran until `stop` and no write failed, STOP and both CLOSEs were written once each, in that order, after everything before them, when both joins are done |
| Teardown.NeverStuck | src/pipeline.rs:162-164 | no reachable state short of the end is stuck, and where the main thread waits, what it waits for can step |
| Teardown.StepsProgress | src/cast_channel.rs:294-300 | once the stop flag is up, every step of any thread decreases one measure |
| Teardown.FinishesFromStop | src/pipeline.rs:163-164 | once the stop flag is up every execution ends so |
| Teardown.TeardownCompletes | src/pipeline.rs:160-194 | every execution that keeps scheduling the main thread ends with the dispatcher gone, the monitor ended and both joined |
| Teardown.MonitorFirstDeadlocks | src/pipeline.rs:162 | joining the monitor first while the peer sends heartbeats and nothing else, no thread ever gets out |
| Teardown.MonitorFirstReaches | src/pipeline.rs:162 | and that state is reached from a running session |

## Left out

- PipeWire and WASAPI sinks, Opus, mDNS, TLS and UDP sockets, logging and the command line: their results are parameters (bytes written to the ring, an encoder function, read chunks, outcomes of sends and writes).
- AES itself: `block` is an arbitrary function of the counter block. Secrecy is not claimed, only that counters do not repeat.
- JSON: `payload_type_is` is an arbitrary predicate; the contents of OFFER, ANSWER and other messages are not modelled.
- UTF-8: `lossy` is an arbitrary conversion; the codec round trip asks that it change nothing on the four strings, which is what valid UTF-8 means for it.
- The layout of RTCP sender reports (`src/cast_rtp.rs:375-399`): straight-line arithmetic.
- Timers: clock readings and "a PING is due", "the peer is silent" are inputs of a turn. 20 ms and 5 s are compared in nanoseconds.
- Weak memory: the model admits everything these orderings allow one producer and one consumer, except a load of a value before it is stored; a thread sees its own stores at once. The `closed` flag is loaded in order: a stale load of it is a later store.
- AudioRing.AudioRing.ReadFrames: asks that the producer's true lead stay below one word during the call, since the wrapped lap check is blind beyond; `AudioRing.LapCheckOnWords` gives the exact condition. The word is any power of two above the slot count, 2^64 among them.
- AudioRing.AudioRing.EndOfRead: as `ReadFrames`.
- AudioRing.AudioRing.CheckLap: as `ReadFrames`.
- AudioRing.FinishStep: as `ReadFrames`.
- AudioRing.AudioRing.WriteS16le: runs without reader steps in between, because it loads nothing the reader stores; the interleaved form is `Interfere` with `AudioRing.WholeCallAppends`.
- Capture.Loop.SkipNegotiation: as `Run`.
- Capture.Loop.DrainBacklog: as `Run`.
- Capture.Loop.ReadAndSend: as `Run`.
- Capture.Loop.Pass: as `Run`.
- Capture.Loop.Run: like `ReadFrames` it asks that no index laps a word. The NACK thread's datagrams are served at the head of a pass and between a send and its record; ring and socket do not tell other moments from these. Statistics and log lines are not modelled.
- RtpSender.ResendsExactly: `last_sent` and the history are read and written under one lock, so a datagram is one step, and so is what `send_frame` does under it together with the two counters it stores after it.
- RtpPacket.NearestIff: the receiver is not part of the repository. It is modelled from what `src/cast_rtp.rs:24` and the comment at `src/cast_rtp.rs:165` say of it; `within 128` is read as 128 back and 127 ahead, so that each of the 256 low bytes names one ID.
- Dispatcher.EndToEnd: bodies of at most 65536 bytes, which is exactly when the framing carries them (`Framing.FramingExactIff`).
- Dispatcher.Connection.Serve: the CONNECT written before the thread starts is not part of it, and messages enqueued or a stop requested during a turn count as of the next.
- Teardown.TeardownCompletes: assumes that a thread's blocking read, write and receive return, and that the main thread is scheduled again. That exactly one cause of the shutdown is reported is not claimed: the program does not ensure it.
- The stop flag of the session and the one of the channel are only followed as far as the join order needs.
