# Depth-gated proximity trigger: RGBD framing, receiver loop and motor controller

This project models the core of a three-part assistive system:

- a Raspberry Pi streams RealSense depth and colour frames over TCP;
- a receiver segments the colour frame with the DIS network and sends the
  character `g` over Bluetooth LE when a confidently segmented object is
  closer than 400 depth units;
- an ESP32 drives a servo from voice commands (`R`, `S`, `G`), the BLE `g`,
  a 15-second timeout and a force sensor.

The modules follow the program's structure:

- `Bytes`, `Grid` and `PlaneCodec` hold the byte-level vocabulary:
  - `struct.pack('>I')` and `struct.unpack('!I')`;
  - `reshape` between flat buffers and 480x640 grids;
  - `uint16` depth samples and BGR colour pixels.
- `Stream` models the TCP connection and `recvall`.
  - A connection is the sequence of non-empty chunks the peer's data arrives in.
  - The end of that sequence is the peer closing.
- `Framing` models the wire format of one frame pair: a length-prefixed depth
  message, then a length-prefixed colour message. It also models reading and
  checking one pair.
- `Sender` models the camera loop of `rgbd_stream_sender.py`.
- `Proximity` models the confidence gate and the minimum non-zero depth.
- `Signal` holds the one byte the two programs agree on: the receiver's
  `b'g'`, which the ESP32 looks for as the character `g`.
- `Receiver` models the receive loop. Its state `RxState` holds the frame
  counter, the evaluation records and the bytes written to the link. The
  module covers:
  - the counter and its every-third-pair cadence;
  - segmentation;
  - dispatch to the link;
  - the end of a session.
- `MotorControl` models the ESP32 sketch as a state machine over `loop()`
  passes and BLE writes.
- `Bridge` connects the two ends: the receiver's writes, read as the
  characteristic's text on the ESP32.

Some things are parameters of the model rather than code:

- The DIS network is a `Segmenter`: a function from colour planes to 480x640
  confidence masks. It returns `None` when the call raises.
- The BLE link is a `Link`: a function from the frame count to the link's
  status at that dispatch.
- On the ESP32, every `loop()` pass takes its inputs explicitly:
  - the serial byte, if one is available;
  - the two `millis()` readings, one in `VoiceMode` and one in `checkTimer`;
  - the force-sensor reading.

Three behaviours of the code shape the model:

- **Segmentation failure.** In `solvers/rgbd_receiver.py`, an exception
  from `DIS` is not caught per frame. It reaches the `try` around the whole
  loop (lines 105-137), and the `finally` closes the connection.
  `Receiver.Run` therefore ends the session with `SegmentationFailed`. The
  frame counter has already been incremented for that pair.
- **Bad payload length.** A payload length that disagrees with 480x640 is
  detected only when `frombuffer` or `reshape` rejects it (an odd depth
  length already fails in `frombuffer`), after `recvall` has read the whole
  payload. A bad depth length therefore ends the session before the colour
  header is read.
- **Dispatch.** Each dispatch is awaited inline; there is no latch for a
  signal in flight. `send_bluetooth_signal` swallows its own failures, so a
  disconnected or failing link only changes what reaches the ESP32. It
  never changes the loop.

## Model

| member | source | states |
|---|---|---|
| Bytes.FromToBigEndian | raspberry/rgbd_stream_sender.py:34 | reading back a big-endian encoding of n in k bytes gives n, for every n below 256^k |
| Bytes.ToFromBigEndian | solvers/rgbd_receiver.py:108 | re-encoding the value read from k big-endian bytes reproduces those bytes |
| Bytes.Unpack32 | solvers/rgbd_receiver.py:108 | `!I` reads a 32-bit length, and the 4 header bytes are exactly the big-endian encoding of that length |
| Bytes.Unpack32Weights | solvers/rgbd_receiver.py:108 | the unpacked length weighs the first byte by 2^24, the second by 2^16, the third by 2^8 and the last by 1 (network order) |
| Bytes.Pack32 | raspberry/rgbd_stream_sender.py:34 | the `>I` header of a length is 4 bytes and `!I` unpacks it to that length |
| Bytes.PackOfUnpack | solvers/rgbd_receiver.py:108 | every 4-byte header is the packing of the length it unpacks to, so the header is a bijection on 32-bit lengths |
| Grid.Rows | solvers/rgbd_receiver.py:109 | `reshape(h, w)` of a buffer of h*w items yields an h-by-w grid whose row-major flattening is the buffer |
| Grid.FlatLength | raspberry/rgbd_stream_sender.py:33 | `tobytes` of an h-by-w grid has h*w items |
| Grid.RowsOfFlat | solvers/rgbd_receiver.py:109 | reshaping the row-major flattening of an h-by-w grid gives the grid back |
| Grid.InFlat | solvers/rgbd_receiver.py:125 | a value is in the flattened plane exactly when it sits at some pixel of the plane |
| PlaneCodec.EncodeSamples | raspberry/rgbd_stream_sender.py:33 | a run of `uint16` samples occupies two bytes per sample |
| PlaneCodec.DecodeSamples | solvers/rgbd_receiver.py:109 | `frombuffer(dtype=uint16)` of an even-length buffer gives samples that re-encode to the buffer |
| PlaneCodec.DecodeEncodeSamples | solvers/rgbd_receiver.py:109 | decoding encoded `uint16` samples gives the samples back |
| PlaneCodec.EncodePixels | raspberry/rgbd_stream_sender.py:38 | a run of BGR pixels occupies three bytes per pixel |
| PlaneCodec.DecodePixels | solvers/rgbd_receiver.py:113 | `frombuffer(dtype=uint8)` of a length divisible by 3 gives pixels that re-encode to the buffer |
| PlaneCodec.DecodeEncodePixels | solvers/rgbd_receiver.py:113 | decoding encoded pixels gives the pixels back |
| PlaneCodec.DecodeDepth | solvers/rgbd_receiver.py:109 | the depth plane decodes exactly when the payload is h*w*2 bytes, and then it is an h-by-w grid that re-encodes to the payload |
| PlaneCodec.DecodeColor | solvers/rgbd_receiver.py:113 | the colour plane decodes exactly when the payload is h*w*3 bytes, and then it is an h-by-w grid that re-encodes to the payload |
| PlaneCodec.DepthRoundTrip | solvers/rgbd_receiver.py:109 | decoding the sender's depth bytes gives the sender's h-by-w depth plane back |
| PlaneCodec.ColorRoundTrip | solvers/rgbd_receiver.py:113 | decoding the sender's colour bytes gives the sender's h-by-w colour plane back |
| Stream.Recv | solvers/rgbd_receiver.py:86-87 | `recv(n)` returns at most n bytes, empty only at end of stream (or for n = 0), and loses nothing: what it returns followed by what remains is the stream |
| Stream.RecvLoop | solvers/rgbd_receiver.py:84-90 | the accumulate loop completes exactly when the bytes so far plus the remaining stream reach `length`, and then returns the bytes so far followed by the next bytes of the stream up to `length`, leaving the remainder unread |
| Stream.RecvAll | solvers/rgbd_receiver.py:82-90 | `recvall` succeeds exactly when at least `length` bytes remain; the result is the next `length` bytes of the stream and the rest is left unread |
| Framing.EncodeMessage | raspberry/rgbd_stream_sender.py:33-36 | a message is 4 header bytes then the payload, and the header unpacks to the payload's length |
| Framing.DepthMessage | raspberry/rgbd_stream_sender.py:33-36 | the depth message of a 640x480 plane is 4 + 614400 bytes: a header that unpacks to 614400, then the plane's samples |
| Framing.ColorMessage | raspberry/rgbd_stream_sender.py:38-41 | the colour message of a 640x480 plane is 4 + 921600 bytes: a header that unpacks to 921600, then the plane's pixels |
| Framing.EncodePair | raspberry/rgbd_stream_sender.py:33-41 | one pair on the wire is a header unpacking to 614400, the depth samples, a header unpacking to 921600, then the colour pixels, in that order |
| Framing.ReadMessage | solvers/rgbd_receiver.py:108-109 | a delivered message is exactly what a sender would have encoded for that payload at the head of the stream |
| Framing.ReadPair | solvers/rgbd_receiver.py:108-113 | a delivered pair has the 480x640 shape on both planes, and the stream began with exactly that pair's encoding |
| Framing.ReadMessageOfEncoded | solvers/rgbd_receiver.py:108-109 | an encoded message at the head of the stream is read back intact under any chunking, leaving the tail |
| Framing.ReadMessageTruncated | solvers/rgbd_receiver.py:87-88 | a message cut short by the peer closing is never delivered |
| Framing.ReadPairOfEncoded | solvers/rgbd_receiver.py:108-113 | reading the sender's encoding of a pair gives that pair back and leaves the tail |
| Framing.ReadPairTruncated | solvers/rgbd_receiver.py:108-113 | a stream that ends anywhere inside a pair stops with `ConnectionClosed` |
| Framing.ReadPairTruncatedInColor | solvers/rgbd_receiver.py:112-113 | a whole depth message followed by a cut colour message stops with `ConnectionClosed` |
| Framing.ReadPairBadDepthLength | solvers/rgbd_receiver.py:108-109 | a depth length other than 614400 stops with `FrameFormatError` |
| Framing.ReadPairBadColorLength | solvers/rgbd_receiver.py:112-113 | after a valid depth message, a colour length other than 921600 stops with `FrameFormatError` |
| Sender.CompletePairs | raspberry/rgbd_stream_sender.py:23-31 | the pairs that reach the wire are no more than the captures, each has the configured 480x640 shape, and with no dropped capture there is one pair per capture |
| Sender.CompletePairsMembers | raspberry/rgbd_stream_sender.py:23-31 | the pair of every complete capture is sent, and every pair sent is that of some complete capture |
| Sender.CompletePairsAppend | raspberry/rgbd_stream_sender.py:21-31 | a capture taken after the others is sent after all of theirs, and only if both its planes are present |
| Sender.Send | raspberry/rgbd_stream_sender.py:21-41 | the socket receives one fixed-length pair encoding per complete capture (its contents in order are stated by `Sender.SendIsCompletePairs`) |
| Sender.EncodeAll | raspberry/rgbd_stream_sender.py:21-41 | n sent pairs occupy n times the fixed pair length |
| Sender.SendIsCompletePairs | raspberry/rgbd_stream_sender.py:21-41 | the socket receives, in capture order, exactly the encodings of the captures with both planes present; incomplete captures contribute nothing |
| Sender.PayloadSizesMatchReceiver | raspberry/rgbd_stream_sender.py:10-11 | the configured 640x480 `z16` and `bgr8` streams yield 614400- and 921600-byte payloads, the sizes the receiver's reshapes accept |
| Proximity.MinPositive | solvers/rgbd_receiver.py:125-129 | the minimum of the positive values is absent exactly when none is positive, and is otherwise a positive member no larger than any positive member |
| Proximity.ApplyMask | solvers/rgbd_receiver.py:122-124 | masking keeps the plane's shape; a pixel stays positive exactly when its confidence is above 253 and its depth is non-zero, and a pixel that stays non-zero keeps its depth |
| Proximity.Evaluate | solvers/rgbd_receiver.py:122-130 | a recorded depth is positive, and a trigger implies a recorded depth below 400 (the full characterisation is `Proximity.EvaluateGatedMinimum`) |
| Proximity.EvaluateGatedMinimum | solvers/rgbd_receiver.py:122-130 | the recorded depth is absent exactly when no pixel has confidence above 253 and non-zero depth; otherwise it is such a pixel's depth and no other such pixel is nearer; the trigger fires exactly when it is below 400 |
| Proximity.EvaluateCorrect | solvers/rgbd_receiver.py:123-129 | the minimum of the masked, flattened plane relates to the retained pixels of the received plane |
| Proximity.AllMaskedNeverTriggers | solvers/rgbd_receiver.py:123-126 | if no pixel's confidence exceeds 253 there is no nearest depth and no trigger |
| Proximity.ThresholdIsStrict | solvers/rgbd_receiver.py:130 | a retained pixel at exactly 400, with no retained pixel nearer, is recorded as the nearest depth and does not trigger |
| Proximity.BackgroundIgnored | solvers/rgbd_receiver.py:123-126 | a near pixel with low confidence, alone in the plane, does not trigger |
| Proximity.TwoByTwoExample | solvers/rgbd_receiver.py:122-130 | on a small plane, the far confident pixel and the near background pixel are ignored and the confident 200 triggers |
| Receiver.Evaluated | solvers/rgbd_receiver.py:120-132 | an evaluation appends exactly one record for the current count; it was delivered exactly when it triggered and the link was connected, and the written bytes grow by one `g` exactly then |
| Receiver.EvaluatedRecordsDecision | solvers/rgbd_receiver.py:121-130 | the record holds the gated nearest depth and trigger decision for that pair's planes |
| Receiver.Process | solvers/rgbd_receiver.py:116-132 | processing a pair increments the counter; off-cadence pairs change nothing else; on the cadence the session ends exactly when segmentation fails, and otherwise the pair is evaluated with the mask the segmenter returned |
| Receiver.Iterate | solvers/rgbd_receiver.py:106-132 | a pass that continues has consumed input, so the loop ends on every finite stream |
| Receiver.Run | solvers/rgbd_receiver.py:103-137 | the frame counter never decreases over a session |
| Receiver.Session | solvers/rgbd_receiver.py:100-137 | in every session the k-th evaluation ran on pair 3(k+1); n counted pairs give n/3 evaluations, or one fewer when a segmentation failure ended the session; in every session an evaluation is delivered exactly when it triggered at a connected link, and the bytes written are one `g` per delivery |
| Receiver.ProcessKeepsCadence | solvers/rgbd_receiver.py:116-121 | one pass keeps the counter and the evaluation records in step |
| Receiver.IterateKeepsCadence | solvers/rgbd_receiver.py:106-121 | one read-and-process pass keeps the counter and the evaluation records in step |
| Receiver.RunKeepsCadence | solvers/rgbd_receiver.py:103-121 | over a whole run, however it ends, the k-th evaluation happens at pair 3(k+1); no multiple of 3 is skipped, except that a segmentation failure leaves exactly the failing pair's evaluation unrecorded |
| Receiver.ProcessKeepsDispatch | solvers/rgbd_receiver.py:130-132 | one pass keeps the written bytes equal to one `g` per delivered evaluation |
| Receiver.IterateKeepsDispatch | solvers/rgbd_receiver.py:106-132 | one read-and-process pass keeps the written bytes equal to one `g` per delivered evaluation |
| Receiver.RunKeepsDispatch | solvers/rgbd_receiver.py:103-132 | over a run, the link receives only `g` bytes, one per evaluation that triggered while connected |
| Receiver.ProcessIgnoresLink | solvers/rgbd_receiver.py:70-79 | the link's behaviour does not change how a pass counts or ends |
| Receiver.IterateIgnoresLink | solvers/rgbd_receiver.py:70-79 | the link's behaviour does not change how a read-and-process pass counts or ends |
| Receiver.LinkDoesNotAffectLoop | solvers/rgbd_receiver.py:70-79 | a disconnected or failing link changes neither the number of pairs processed, nor the number of evaluations, nor how the session ends |
| Receiver.ProcessSameDecisions | solvers/rgbd_receiver.py:120-132 | two passes over the same pair that differ only in the link make the same frame, nearest-depth and trigger records and end alike |
| Receiver.IterateSameDecisions | solvers/rgbd_receiver.py:106-132 | two read-and-process passes that differ only in the link make the same frame, nearest-depth and trigger records and end alike |
| Receiver.LinkDoesNotAffectDecisions | solvers/rgbd_receiver.py:70-79 | whatever the link does, a run counts the same pairs, ends the same way, and records the same frames, nearest depths and trigger decisions; only delivery differs |
| Receiver.RunOverPairs | solvers/rgbd_receiver.py:103-132 | a stream of well-formed pairs followed by a tail that stops reading is consumed pair by pair, counting each, ending with the tail's failure; every record added names a pair and holds the gated decision on that pair's planes |
| Receiver.RecordsAtCadence | solvers/rgbd_receiver.py:116-130 | when the records sit at pairs 3, 6, 9, ..., the k-th record holds the gated decision on the planes of pair 3(k+1) |
| Receiver.SessionOverPairs | solvers/rgbd_receiver.py:103-137 | for a segmenter that never fails, a stream of whole encoded pairs that then closes is counted pair by pair under any chunking; the k-th evaluation is the gated decision on pair 3(k+1); the session ends with `ConnectionClosed` |
| Receiver.EmptyStreamCloses | solvers/rgbd_receiver.py:87-88 | an exhausted stream ends the read with `ConnectionClosed` |
| Receiver.SessionOverSenderStream | solvers/rgbd_receiver.py:103-137 | for a segmenter that never fails, fed the sender's output, the session counts every complete capture, makes count/3 evaluations, the k-th on the planes of complete capture 3(k+1), and ends when the peer closes |
| Receiver.SessionStopsOnBadDepthLength | solvers/rgbd_receiver.py:108-109 | for a segmenter that never fails, a bad depth length after n good pairs ends the session with `FrameFormatError` and a count of n |
| Receiver.SessionStopsOnTruncatedPair | solvers/rgbd_receiver.py:108-113 | for a segmenter that never fails, a stream cut inside a pair after n good pairs ends with `ConnectionClosed` and a count of n; the partial pair is not counted |
| Receiver.SessionStopsOnSegmentationFailure | solvers/rgbd_receiver.py:116-137 | a failed segmentation of the third pair ends the session with `SegmentationFailed`, a count of 3 and no evaluation, whatever follows on the stream |
| Receiver.RunStopsAtThirdPair | solvers/rgbd_receiver.py:105-137 | from the start, two pairs are only counted and the third's failed segmentation ends the loop with the counter at 3 |
| MotorControl.ScanWrite | esp32/pid_controller.cpp:53-62 | the scan over the written value sets the flag exactly when it was set or some character is `g` |
| MotorControl.OnWrite | esp32/pid_controller.cpp:50-64 | a BLE write sets `bluetoothReceivedG` iff it contains `g`, never clears it, and changes nothing else |
| MotorControl.Find | esp32/pid_controller.cpp:80 | `std::find` gives the first `G`, or the end when there is none |
| MotorControl.ReleaseG | esp32/pid_controller.cpp:80-84 | the first `G` is erased and the order of the others is kept; the stack loses exactly one `G` as a multiset, or nothing when there is none |
| MotorControl.VoiceMode | esp32/pid_controller.cpp:68-98 | as a multiset the stack gains a `G` on `G` and loses one on `R`; on `G` the old stack is kept as a prefix, the timer restarts and waiting starts; the interrupt is raised exactly by `R` or `S`; the servo reverses on `R`, goes neutral on `S` and is otherwise untouched; the BLE trigger is never touched |
| MotorControl.ElapsedAcrossWrap | esp32/pid_controller.cpp:125 | the unsigned 32-bit difference `millis() - lastCommandTime` equals the true elapsed time even across a wrap of the counter |
| MotorControl.Elapsed | esp32/pid_controller.cpp:125 | the unsigned difference of two `millis()` readings is the time that, added to the start modulo 2^32, gives the later reading |
| MotorControl.CheckTimer | esp32/pid_controller.cpp:119-131 | the wait ends exactly when waiting and either a `g` arrived or at least 15000 ms elapsed, and then the servo drives forward; otherwise the servo is untouched; a received `g` is cleared while waiting and kept otherwise; the stack, timer start and interrupt are untouched |
| MotorControl.CheckFsr | esp32/pid_controller.cpp:134-150 | the interrupt is always clear afterwards; a pending interrupt or a reading of at most 5 leaves the servo where it was; otherwise the servo drives forward; nothing else changes |
| MotorControl.SetupEstablishesInvariant | esp32/pid_controller.cpp:152-155 | after `setup()` the motor is at 90 degrees, the stack is empty and the invariant holds |
| MotorControl.ReleaseGKeepsEntries | esp32/pid_controller.cpp:80-84 | erasing a `G` introduces no new entries |
| MotorControl.ApplyKeepsInvariant | esp32/pid_controller.cpp:50-186 | every BLE write and `loop()` pass keeps the stack all `G`s and the servo at one of 60, 90 and 120 |
| MotorControl.RunKeepsInvariant | esp32/pid_controller.cpp:182-186 | any sequence of events keeps the stack all `G`s and the servo at one of the three positions |
| MotorControl.Loop | esp32/pid_controller.cpp:182-186 | a `loop()` pass ends with the interrupt flag clear, never sets the BLE trigger, and keeps the servo at one of 60, 90 and 120 |
| MotorControl.ReverseReleasesOldest | esp32/pid_controller.cpp:75-84 | since the stack holds only `G`s, `R` removes the oldest entry, and does nothing to an empty stack |
| MotorControl.VoiceCommandMasksSensor | esp32/pid_controller.cpp:134-140 | in a pass that received `R` or `S`, the force-sensor reading has no effect |
| MotorControl.TriggerAfterGoDrivesForward | esp32/pid_controller.cpp:91-124 | with no `g` latched beforehand, after a voice `G`, a BLE `g` drives forward on the next pass whatever the clock says, and clears the wait and the trigger |
| MotorControl.TimeoutAcrossWrap | esp32/pid_controller.cpp:125-129 | with no trigger, a pending `G` drives forward exactly when at least 15000 ms have passed, even across a counter wrap, and nothing changes before that |
| MotorControl.LatchedTriggerFiresNextGo | esp32/pid_controller.cpp:59-60 | a `g` written while nothing is pending stays latched, and the next voice `G` drives forward in that same pass |
| MotorControl.ReverseKeepsPendingWait | esp32/pid_controller.cpp:75-84 | `R` reverses but does not cancel a pending wait, so the timer can still drive forward later |
| Bridge.AsText | esp32/pid_controller.cpp:51 | the characteristic's value has one character per byte written |
| Bridge.Writes | solvers/rgbd_receiver.py:74 | each written byte becomes its own one-character BLE write, in order |
| Bridge.ReceiverWritesArmTrigger | solvers/rgbd_receiver.py:72-74 | one `onWrite` per written `g` arms the ESP32's trigger exactly when at least one was written, and changes nothing else on the ESP32 |

## Left out

- The DIS network is an oracle parameter. Its internals are not modelled: interpolation, normalisation, floating point and the conversion to a 0-255 mask.
- Sockets, `bind`, `listen` and `accept` are not modelled, nor is the Bleak client, `connect_to_esp32` or the `asyncio` event loop. A session is one accepted connection, and the link is an oracle of its status.
- The RealSense pipeline is not modelled. Each capture is an optional depth plane and an optional colour plane.
- The byte order of `uint16` depth samples is native in the source. The model assumes both hosts are little-endian and fixes that order on both ends; a big-endian host is not modelled.
- Console output is not modelled: `print` and `Serial.print`.
- The ESP32 BLE server setup, advertising and `onConnect`/`onDisconnect` are not modelled, and nor are `pinMode`, `attach` and the serial baud rate. None of them affects the command state.
- Cross-task concurrency between the BLE write callback, which runs in the BLE stack's task, and `loop()` is reduced to writes landing between passes.
- The audio and voice-recognition scripts of the repository are not part of this model.
- Receiver.Run: its own contract states only that the counter never decreases. The cadence and dispatch facts are stated by `Receiver.Session` and the keep-lemmas; the link between each record and the pair it was made on is stated by `Receiver.RunOverPairs`, only for streams of whole pairs and a segmenter that never fails.
