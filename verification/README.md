# Verified models of the highwind telemetry and estimation code

Five parts of the repository, modelled in Dafny and proved correct.

1. **Telemetry link** (C). A frame is found in the bytes of the serial line, stamped, sent,
   offered to one of two log rings, moved by a second thread to a log file, and later cut out
   of that file again and resent. `Checksum.dfy`, `Framing.dfy`, `SerialInput.dfy`,
   `CircularBuffer.dfy`, `LoggerProtocol.dfy`, `LoggerInterleaving.dfy`, `LoggerOrder.dfy`,
   `LoggerExactness.dfy`, `LoggerProgress.dfy`, `LoggerLosses.dfy`, `MainPlane.dfy`, `LisaToPc.dfy`, `LisaLoop.dfy`,
   `Replay.dfy`, `TelemetryLink.dfy`, `Decoding.dfy`.
2. **Common-subexpression elimination** (Python) through dictionaries of hashes.
   `Expressions.dfy`, `Arithmetic.dfy`, `Cse.dfy`.
3. **Moving-horizon measurement window** (Python) with a fixed camera delay and a cable delay
   that differs from sample to sample. `MovingHorizon.dfy`.
4. **Stereo triangulation and three-point registration** (Python, over exact reals).
   `Vectors.dfy`, `Lines.dfy`, `CameraModel.dfy`, `Triangulation.dfy`, `Registration.dfy`,
   `Optimality.dfy`, `Uniqueness.dfy`.
5. **Average period and latency** (C). `Analyze.dfy`.

`dafny verify dfyconfig.toml` checks the whole project.

## Conventions

- Structs and objects that the source updates in place are classes; each method is proved
  against a function on values, and what the source promises is proved about that function.
- Bytes are integers below 256 and both checksum accumulators wrap modulo 256. The frame length
  that the logger takes from a `char` is read as unsigned.
- The two logger threads are steps of a state machine, at two granularities: a whole pass of a
  loop (`LoggerProtocol`), and a single ring call or assignment (`LoggerInterleaving`). A pass
  that is not interrupted is proved to be one step of the coarser machine.
- The clock, the bytes of the serial line, the log file and what a flush drops are parameters or
  nondeterministic. The end of the serial stream is an abstraction: a read that the remaining
  bytes cannot serve fails, where the source would go on polling and only a failing `read` gives
  the error.
- Square roots are a function parameter with the property that defines them, `IsSqrt`.
- The hash function of the elimination is an arbitrary parameter. The collision-free hypothesis
  speaks only of the expressions that have been met, so it can be met by a real hash function.

## Where the code and its own claims differ

- The logger does not always keep arrival order. With turns of single ring calls and assignments, in
  any interleaving and on both paths, the exact condition on a run is proved: the order holds in
  every reachable state if and only if the read pointer is only ever moved away from an empty
  ring (`InOrderExactlyWhenRead`), which the code does not test. In this statement the frames of
  a ring that neither pointer names, in the middle of a swap, count as out of place. If they
  count as the end of the line instead, the condition is that the two rings of every swap commute,
  which for frames that differ is the same one again (`ArrangedExactly`).
- How often the logging thread must get a turn for that: if after each swap it has had 3 turns by the
  writer's (3 CBSIZE + 3)rd, the condition is met (`LogIsInArrivalOrder`,
  `AttentiveRunsSwapOnlyWhenRead`). This is the weakest such count: with one writer turn more there is
  a run, for every ring size, in which an unread ring is swapped back under the writer
  (`OneTurnMoreBreaksOrder`). A run that gives the logger fewer turns may still keep the order.
- For passes that do not overlap the exact bound is one poll in every CBSIZE + 2 consecutive passes
  of the writer (`LogKeepsArrivalOrder`, `OneMoreOfferBreaksOrder`). If passes overlap, that is
  not enough (`OverlappingPassesBreakOrder`).
- A frame is dropped, and the LISA path exits, only if the logging thread is too slow to empty its ring:
  none is if after each swap it gets 4 CBSIZE + 3 turns by the writer's (3 CBSIZE + 3)rd
  (`DiligentLoggerLosesNothing`), and with one turn less there is a run in which one is, for every
  ring size (`OneTurnLessLosesAFrame`).
- The frame that triggers a swap is never logged: logged frame i is the frame that arrived as
  number i + i / CBSIZE (`OneFrameIsLostPerSwap`).
- The elimination preserves meaning exactly when the hash function does not collide on the
  signatures in the expression (`RightExactlyWithoutCollisions`). Python's `hash` gives -1 and -2
  the same value; `MinusOneBecomesMinusTwo` shows the resulting error.
- After a decode and a switch, the reader sees the last message to a member exactly when it came an
  even number of successful frames ago; otherwise the message is in the writer's copy
  (`LastIsSeenWhenEven`, `LastIsInOneCopy`).
- Decoding never sets a new_data flag: in either copy the flags keep their initial values, but for that of
  the error message, which is cleared (`ShownFlag` in `Decoder.Valid`).
- Stripping undoes stamping exactly on frames that carried the right check bytes before
  (`StripUndoesStamp`): stamping replaces wrong check bytes by right ones.

## Model

| member | source | states |
|---|---|---|
| Rings.WriteContents | bbones/shared/circular_buffer.c:53-62 | a write to a ring with room appends; a write to a full ring also loses the oldest element |
| Rings.ReadContents | bbones/shared/circular_buffer.c:65-72 | a read removes and returns the oldest element; on an empty ring it would make the ring full of stale ones |
| Rings.WriteAllKeepsNewest | bbones/shared/circular_buffer.c:51-62 | after any writes the ring holds the newest elements that fit, in order |
| Rings.NextIsRemainder | bbones/shared/circular_buffer.c:42 | the wrapped successor is the remainder the source computes |
| Rings.CircularBuffer.constructor | bbones/shared/circular_buffer.c:19-28 | an empty ring with one more slot than its capacity |
| Rings.CircularBuffer.IsFull | bbones/shared/circular_buffer.c:37-42 | full exactly when one slot is left |
| Rings.CircularBuffer.IsEmpty | bbones/shared/circular_buffer.c:44-49 | empty exactly when it holds nothing |
| Rings.CircularBuffer.Write | bbones/shared/circular_buffer.c:53-62 | the struct in place becomes the ring after one write |
| Rings.CircularBuffer.Read | bbones/shared/circular_buffer.c:65-72 | the struct in place becomes the ring after one read, and the oldest element is returned |
| LoggerProtocol.LogKeepsArrivalOrder | bbones/planebone/main_plane.c:269-281 | for passes that do not overlap: with a poll before each (CBSIZE + 2)nd consecutive offer, log, read ring and write ring together are the accepted frames in arrival order, with one swap per CBSIZE frames handed over |
| LoggerProtocol.OneMoreOfferBreaksOrder | bbones/planebone/main_plane.c:273-281 | that bound is exact among runs of whole passes: with one more offer allowed, a run for every ring size reorders the log |
| LoggerProtocol.OfferKeepsOrder | bbones/planebone/main_plane.c:179-188 | each offer keeps the order invariant while the bound holds |
| LoggerProtocol.PollKeepsOrder | bbones/planebone/main_plane.c:309-319 | each poll keeps the order invariant and restarts the count of offers |
| LoggerInterleaving.RingCallsAreSafe | bbones/planebone/main_plane.c:309-319 | in every interleaving of single calls and assignments, swaps included, no read meets an empty ring and no write overwrites |
| LoggerInterleaving.FramesAreConserved | bbones/planebone/main_plane.c:332-342 | in every interleaving the logged, in-flight and stored frames are the accepted ones, and every offer is accepted, spent on a swap, dropped or pending |
| LoggerInterleaving.WriterKeepsCoherence | bbones/planebone/main_plane.c:382-386 | the ring pointers are equal only between the two assignments of a swap, and a ring handed across is full |
| LoggerInterleaving.UninterruptedWriterPass | bbones/planebone/main_plane.c:269-281 | the writer's steps, not interrupted, are one pass of its loop, and end in exit exactly if the LISA path drops the frame |
| LoggerInterleaving.UninterruptedLoggerPass | bbones/planebone/main_plane.c:309-319 | the logger's steps, not interrupted, are one pass of its loop |
| LoggerProgress.PollsDrain | bbones/planebone/main_plane.c:309-319 | k polls in a row log the first k frames of the read ring, in order and with the flag up; the poll after the last lowers the flag and logs nothing |
| LoggerProgress.LoggerDrains | bbones/planebone/main_plane.c:309-319 | in every interleaving in which the read pointer is not moved, after 4 logger turns for each frame of its ring and 3 more all of them are logged, in order, the ring is empty and the flag is down |
| LoggerProgress.DiligentLoggerLosesNothing | bbones/planebone/main_plane.c:273-281 | if after each swap the logger gets 4 CBSIZE + 3 turns by the writer's (3 CBSIZE + 3)rd, no frame is dropped, the LISA path does not exit and the order is kept |
| LoggerProgress.OneTurnLessLosesAFrame | bbones/planebone/main_plane.c:273-281 | that count is exact: with one logger turn less, for every ring size and on both paths a run drops a frame |
| LoggerExactness.InOrderExactlyWhenRead | bbones/planebone/main_plane.c:269-319 | for every interleaving of single steps, on both paths: log, frame in hand, read ring and write ring are the accepted frames in arrival order in every reachable state if and only if the read pointer is only moved away from an empty ring |
| LoggerExactness.ArrangedExactly | bbones/planebone/main_plane.c:376-386 | if a ring set aside in the middle of a swap counts as the end of the line, the order is kept exactly when the rings of every swap commute, and for frames that differ exactly when every swap is made over an empty ring |
| LoggerExactness.AttentiveRunsSwapOnlyWhenRead | bbones/planebone/main_plane.c:273-319 | a logger with 3 turns by the writer's (3 CBSIZE + 3)rd after each swap meets that condition |
| LoggerOrder.LogIsInArrivalOrder | bbones/planebone/main_plane.c:269-319 | the turn count that guarantees the order: if after each swap the logger has 3 turns by the writer's (3 CBSIZE + 3)rd, log, frame in hand, read ring and write ring together are the accepted frames in arrival order, and each swap hands over CBSIZE of them |
| LoggerOrder.OneTurnMoreBreaksOrder | bbones/planebone/main_plane.c:269-319 | no larger count guarantees it: with one more writer turn allowed, for every ring size and on both paths a run puts later frames in front of earlier ones |
| LoggerOrder.OverlappingPassesBreakOrder | bbones/planebone/main_plane.c:269-319 | a logger pass that ends among every CBSIZE + 2 consecutive offers is not enough if it began before the swap: for every ring size a run reorders the log |
| LoggerOrder.SwapKeepsOrderExactly | bbones/planebone/main_plane.c:376-380 | a swap at any moment keeps the order exactly when the two rings commute; with distinct frames, exactly when the read ring is empty |
| LoggerOrder.WriterKeepsOrder | bbones/planebone/main_plane.c:269-281 | each step of the writer keeps the order invariant while the bound holds |
| LoggerOrder.LoggerKeepsOrder | bbones/planebone/main_plane.c:309-319 | each step of the logger keeps the order invariant |
| LoggerLosses.OneFrameIsLostPerSwap | bbones/planebone/main_plane.c:269-281 | logged frame i is the frame that arrived as number i + i / CBSIZE, and every arrival is logged, in hand, in a ring, spent on a swap, dropped or pending |
| MainPlane.LoggingPath.constructor | bbones/planebone/main_plane.c:58-62 | two empty rings, distinct pointers, the flag down |
| MainPlane.LoggingPath.SwitchPointers | bbones/planebone/main_plane.c:376-380 | the two ring pointers exchange their rings |
| MainPlane.LoggingPath.WriterPass | bbones/planebone/main_plane.c:269-281 | one pass of the writer in place is one offer of the protocol, and says when the logger was not ready |
| MainPlane.LoggingPath.LoggerPass | bbones/planebone/main_plane.c:309-319 | one pass of the logger in place is one poll of the protocol |
| MainPlane.LoggingPath.Serve | bbones/planebone/main_plane.c:179-188 | any schedule of whole passes of the ground-station loop, which does not exit, and of its logger is the run of the protocol on that schedule |
| LisaToPc.Pass | bbones/planebone/main_plane.c:245-290 | a received frame is stamped, sent, and offered to the ring over the stale bytes of the last element; an error offers nothing; the bytes behind the frame are left |
| LisaToPc.PassOffersASealedFrame | bbones/planebone/main_plane.c:261-272 | every element a pass offers carries the stamped frame with right check bytes |
| LisaLoop.Loop | bbones/planebone/main_plane.c:243-319 | over a whole stream, with any number of logger passes after each of its own: the outcomes of the calls determine what is sent, the log path and cb_elem; it exits exactly if a frame meets a full write ring with the flag up, and otherwise uses up the stream and has received frames that repeated calls can return |
| LisaLoop.LoopOffersElements | bbones/planebone/main_plane.c:261-275 | the log path after the loop is that of a run whose offers are, in order, the elements that carry the received frames, stamped, over the stale bytes |
| Checksum.CalculateChecksum | bbones/shared/data_decoding.c:306-320 | the loop computes the plain and the position-weighted byte sums modulo 256 |
| Checksum.SumsOfConcatenation | bbones/shared/data_decoding.c:306-320 | the two sums over two pieces, from those over each; both are zero on no bytes |
| Checksum.OneByteChangeIsRejected | bbones/shared/data_decoding.c:66-79 | any change of one byte, except the length byte, is rejected |
| Checksum.TwoByteChange | bbones/shared/data_decoding.c:73-79 | two changed payload bytes pass exactly when they cancel modulo 256 and 256 divides distance times change |
| Checksum.OddDistanceIsRejected | bbones/shared/data_decoding.c:73-79 | two changes at an odd distance are always rejected |
| Framing.DataEncode | bbones/shared/data_decoding.c:258-294 | the buffer holds the stamped canonical frame of the message and nothing behind it changes |
| Framing.AddTimestamp | bbones/shared/data_decoding.c:322-352 | the frame in the buffer is replaced by its stamped form and nothing behind it changes |
| Framing.StripTimestamp | bbones/shared/data_decoding.c:354-372 | the frame in the buffer is replaced by its stripped form and nothing behind it changes |
| Framing.WriteChecks | bbones/shared/data_decoding.c:288-291 | the last two bytes complete the frame with right check bytes |
| Framing.StripUndoesStamp | bbones/shared/data_decoding.c:322-372 | stripping a stamped frame gives it back exactly if its check bytes were right; the stamp can be read back; the stamped frame is sealed |
| Framing.StampUndoesStrip | bbones/shared/data_decoding.c:354-372 | stamping a stripped frame with its old timestamp gives it back |
| Framing.EmptyMessage | bbones/shared/data_decoding.c:270-291 | the shortest frame, byte by byte, check bytes included |
| Framing.TimestampRoundTrip | bbones/shared/data_decoding.c:281-286 | the seconds and microseconds are read back from the 16 bytes |
| SerialInput.GetLisaData | bbones/shared/uart_communication.c:93-163 | the call returns the first frame with right check bytes or the error code of the first failed step, and what is left is what was not read, less what a flush dropped |
| SerialInput.SerialPort.Read | bbones/shared/uart_communication.c:58-91 | the bytes read are the next pending ones, placed at the given offset; too few pending bytes stand for the end of the stream |
| SerialInput.SerialPort.FlushInput | bbones/shared/uart_communication.c:278-289 | a flush drops some of the pending bytes from the front |
| SerialInput.ReceivedIsASealedPiece | bbones/shared/uart_communication.c:106-162 | whatever is received is a contiguous, sealed piece of the stream that starts at its first start byte |
| SerialInput.StreamIsParsedExactly | bbones/shared/uart_communication.c:106-162 | over noise without start bytes, interleaved with sealed frames, repeated calls return exactly the frames and stop when the bytes run out |
| SerialInput.BadFrameIsRejected | bbones/shared/uart_communication.c:133-160 | a message of the announced length with wrong check bytes is read and rejected whole |
| SerialInput.CutFrameIsRejected | bbones/shared/uart_communication.c:106-132 | if the bytes end within a message, the step that lacks them fails and the rest is left |
| SerialInput.ReceiveLoop | bbones/planebone/main_plane.c:243-290 | the loop of calls, which goes on after errors, uses up the bytes and returns frames that repeated calls can return, for some choice of what flushes drop |
| SerialInput.ReturnsSealedPieces | bbones/shared/uart_communication.c:106-162 | whatever flushes drop after errors, the frames the loop returns are sealed pieces of the stream, in order and disjoint |
| SerialInput.ReturnsAllBeforeTheFirstError | bbones/shared/uart_communication.c:106-162 | they begin with the frames before the first error and are these if that error is that the bytes ran out |
| SerialInput.NoisyStreamIsReturned | bbones/shared/uart_communication.c:106-162 | over noise without start bytes, interleaved with sealed frames, the loop returns exactly the frames |
| SerialInput.StrippedFrameIsReceived | bbones/planebone/main_plane.c:192-194 | the stripped frame that is written to the serial line is one its parser accepts |
| Replay.ReadLog | bbones/server/read_log.c:56-88 | the loop sends the datagrams that cutting the file record by record gives, with its behaviour at a wrong start byte and at the end of the file |
| Replay.SendRecord | bbones/server/read_log.c:67-83 | one record is read and sent; bytes missing at the end of the file are 255 |
| Replay.ResendOfConcat | bbones/server/read_log.c:56-88 | a file of whole frames is resent frame by frame |
| Replay.ResendUpToWrongByte | bbones/server/read_log.c:56-88 | the frames before a byte that is not a start byte are resent, and the replay ends there |
| Replay.ResendOfCutLog | bbones/server/read_log.c:67-83 | a last frame that was cut off is sent at its announced length, the missing bytes as 255 |
| TelemetryLink.ReplayOfALog | bbones/server/read_log.c:56-88 | replaying the log of any attentive interleaving sends the accepted frames in arrival order, up to those still on their way |
| TelemetryLink.FromTheLineToTheReplay | bbones/planebone/main_plane.c:243-319 | whatever the bytes of the serial line, in every attentive interleaving packet i of the replayed log is received frame i + i / CBSIZE, stamped, and nothing else is sent |
| TelemetryLink.FromANoisyLineToTheReplay | bbones/server/read_log.c:56-88 | over noise interleaved with sealed frames, the received frames of the theorem above are exactly these |
| Decoding.Decoder.Switch | bbones/shared/data_decoding.c:43-53 | the read and the write copy are exchanged |
| Decoding.Decoder.Decode | bbones/shared/data_decoding.c:55-82 | the error of the first failed test, or the member for sender and id filled from the frame; a failed decode changes nothing |
| Decoding.Decoder.Receive | bbones/server/main_server.c:206-211 | over any run the copies stay distinct and hold what the run's successful frames put there; a failed frame changes neither copy nor their roles |
| Decoding.Decoder.Deliver | bbones/shared/data_decoding.c:258-294 | encoding, decoding and switching gives the reader payload and timestamp of the message in the member for its sender and id, and leaves the others alone |
| Decoding.EncodedStream | bbones/shared/data_decoding.c:270-291 | an encoded message is sealed and has its ids, payload and timestamp where the decoder reads them |
| Decoding.RouteIsOneToOne | bbones/shared/data_decoding.c:84-182 | a frame is decoded into a member exactly if it has the sender and id of that member, of which each has its own |
| Decoding.PayloadIsItsFields | bbones/shared/data_decoding.h:84-215 | the bytes taken from a frame are those of the packed fields before the timestamp |
| Decoding.DeliveryShows | bbones/shared/data_decoding.c:185-193 | a delivery makes the copy it is written into the one that the run shows, bytes and new_data flags, and leaves its other members alone |
| Decoding.LastEvenIsLast | bbones/shared/data_decoding.c:43-53 | what the reader sees of a member is its last message at an even distance from the latest frame |
| Decoding.LastIsSeenWhenEven | bbones/shared/data_decoding.c:43-53 | the reader sees the last message to a member exactly when it came an even number of successful frames ago |
| Decoding.Decoder.LastIsInOneCopy | bbones/shared/data_decoding.c:43-82 | then its bytes are in the reader's copy, otherwise in the writer's |
| Decoding.OverlookedAfterTheNext | bbones/shared/data_decoding.c:43-53 | a message is out of the reader's sight after the next frame to another member, and in sight again after two |
| Expressions.SameIsSameMeaning | pythonCodegen/experimental/cse.py:88-89 | two expressions mean the same in every commutative algebra, over any values, exactly when they are equal up to swapping operands |
| Cse.RightExactlyWithoutCollisions | pythonCodegen/experimental/cse.py:82-153 | from empty dictionaries the elimination terminates with an expression of the same meaning exactly when the hash does not collide on its subexpressions |
| Cse.CanonKeepsMeaning | pythonCodegen/experimental/cse.py:155-164 | the result evaluates to what the argument evaluates to, in every environment and every commutative algebra over any values |
| Arithmetic.CommutesExactlyOnReals | pythonCodegen/experimental/cse.py:22-26 | of the four binary opcodes those count as commutative that commute on the reals |
| Cse.HashIgnoresOrderExactly | pythonCodegen/experimental/cse.py:88-90 | swapping the operands of a recognised binary opcode never changes the hash exactly if the opcode commutes on the reals |
| Cse.MinusOneBecomesMinusTwo | pythonCodegen/experimental/cse.py:102-107 | with Python's equal hashes for -1 and -2, their difference is rebuilt wrongly |
| Cse.SharesMaximally | pythonCodegen/experimental/cse.py:85-94 | without collisions, two expressions have the same hash and the same result exactly when they are equal up to swapping operands |
| Cse.CanonIsIdempotent | pythonCodegen/experimental/cse.py:128-164 | a second elimination changes nothing |
| Cse.CanonCollidesNoMore | pythonCodegen/experimental/cse.py:128-164 | the result of an elimination brings no new collisions |
| Cse.HashedLearnsSubs | pythonCodegen/experimental/cse.py:82-123 | hashing keeps the dictionaries well formed and adds exactly the subexpressions, for any hash function |
| Cse.RebuiltStaysCoherent | pythonCodegen/experimental/cse.py:128-153 | rebuilding keeps every cached result canonical and changes none |
| Cse.LearningStaysCoherent | pythonCodegen/experimental/cse.py:82-123 | hashing a new expression keeps the results cached by earlier calls right |
| Cse.Caches.HashNode | pythonCodegen/experimental/cse.py:82-124 | the hash of the canonical signature, with exactly the entries of the subexpressions added |
| Cse.Caches.HashToCasadiNode | pythonCodegen/experimental/cse.py:128-153 | terminates through the dictionary with the canonical form of what the hash stands for |
| Cse.Caches.Cse | pythonCodegen/experimental/cse.py:161-164 | from any coherent dictionaries, the canonical form of the argument, with its value in real arithmetic for every environment, and exactly the new entries in coherent dictionaries |
| Cse.Caches.CseMatrix | pythonCodegen/experimental/cse.py:165-172 | the same for every entry of a matrix in its place, all hashed before any is rebuilt, with the dictionaries after both |
| MovingHorizon.Estimator.constructor | rawesome_stuff/offline_mhe_test/run_mhe_through_meas.py:522-535 | zero measurements and default weights with the delayed entries zero |
| MovingHorizon.Estimator.Step | rawesome_stuff/offline_mhe_test/run_mhe_through_meas.py:578-685 | after every step y, yN, S and SN are the window as a function of all arrivals |
| MovingHorizon.Estimator.Fill | rawesome_stuff/offline_mhe_test/run_mhe_through_meas.py:613-627 | the same while the window fills |
| MovingHorizon.Estimator.Initialize | rawesome_stuff/offline_mhe_test/run_mhe_through_meas.py:631-647 | the same at the step that completes the window |
| MovingHorizon.Estimator.ShiftAndArrive | rawesome_stuff/offline_mhe_test/run_mhe_through_meas.py:655-684 | the same when the window moves |
| MovingHorizon.Estimator.ShiftWeights | rawesome_stuff/offline_mhe_test/run_mhe_through_meas.py:656-660 | each block takes the next one's place, the last takes SN where SN reaches |
| MovingHorizon.Estimator.ShiftMeasurements | rawesome_stuff/offline_mhe_test/run_mhe_through_meas.py:662-665 | each row takes the next one's place, the last takes yN where yN reaches |
| MovingHorizon.Estimator.PutNew | rawesome_stuff/offline_mhe_test/run_mhe_through_meas.py:671-684 | the new last row, and camera and cable data with their weights in the rows they belong to |
| MovingHorizon.Estimator.WindowRow | rawesome_stuff/offline_mhe_test/run_mhe_through_meas.py:598-612 | row k of y (row N is yN) holds the undelayed sample of its time once it has come, and zeros for the derivatives and controls |
| MovingHorizon.Estimator.CameraWeightsMoveWithData | rawesome_stuff/offline_mhe_test/run_mhe_through_meas.py:584-596 | the camera entries of a row are the positive marker coordinates that arrived nDelay steps after its time with the camera flag set, with the camera weight; zero with weight zero otherwise |
| MovingHorizon.Estimator.CableWeightMovesWithData | rawesome_stuff/offline_mhe_test/run_mhe_through_meas.py:590-596 | the cable entry of a row is the length from the last sample about its time if its flag is set, with the cable weight; zero with weight zero otherwise |
| MovingHorizon.Estimator.OtherWeightsStay | rawesome_stuff/offline_mhe_test/run_mhe_through_meas.py:522-535 | all other weights are the given ones on the diagonal and zero off it |
| MovingHorizon.CableArrivalIsLast | rawesome_stuff/offline_mhe_test/run_mhe_through_meas.py:677-684 | value and weight of a cable entry come from the last arrival whose delay points at its time, and are zero if there is none |
| MovingHorizon.YAfterArrival | rawesome_stuff/offline_mhe_test/run_mhe_through_meas.py:598-628 | one arrival changes only its own row, the camera columns nDelay back and the cable entry rDelay back |
| MovingHorizon.SAfterArrival | rawesome_stuff/offline_mhe_test/run_mhe_through_meas.py:586-627 | and the weights of exactly the same entries |
| Lines.SegmentIsOrthogonal | pythonCodegen/geometry.py:22-35 | the segment that is returned is orthogonal to both lines |
| Lines.SegmentIsShortest | pythonCodegen/geometry.py:5-8 | no two points of the lines are closer |
| Lines.OthersAreLonger | pythonCodegen/geometry.py:5-8 | and no other pair of points is as close |
| Lines.MeetingPointIsFound | pythonCodegen/geometry.py:11-36 | lines that meet give the meeting point, twice, with its parameters |
| CameraModel.InverseUndoes | pythonCodegen/rotation_matrices.py:118-129 | the inverse transformation undoes the transformation |
| CameraModel.UnprojectInvertsProject | pythonCodegen/camera_model.py:36-50 | the ray of an image goes through the point at its depth |
| CameraModel.TriangulationInvertsProjection | pythonCodegen/camera_model.py:71-93 | triangulating the two images of a point gives the point, zero errors and the same images, exactly when the rays pass the parallelism test |
| Triangulation.TriangulationIsClosest | pythonCodegen/camera_model.py:71-84 | for any two images, no point has a smaller sum of squared distances to what the cameras see there than the returned one, no other point an equal one, and the rays are nowhere closer |
| Triangulation.TriangulationErrors | pythonCodegen/camera_model.py:84-93 | eSpace is the distance of the rays, m1 and m2 are the images of the returned point, ePixel is the mean of their distances from the given images |
| Triangulation.ClosestPointsAreSeen | pythonCodegen/camera_model.py:72-83 | the ends of the shortest segment are seen at the given images, unless at a camera |
| Triangulation.TriangulationFailsExactly | pythonCodegen/camera_model.py:71-93 | it fails exactly if the rays are too nearly parallel or the point is at depth zero in a camera |
| Triangulation.ProjectIsPinhole | pythonCodegen/camera_model.py:11-33 | the image of a point is to the focal length as the point is to its depth |
| Registration.FrameIsARotation | pythonCodegen/register_three_points.py:42-57 | the three rows are a right-handed orthonormal frame with the triangle's normal last |
| Registration.GainIsPositive | pythonCodegen/register_three_points.py:67-74 | for any two non-collinear triples the closed form never divides by zero |
| Registration.CovarianceIsPositive | pythonCodegen/register_three_points.py:58-73 | in the two frames the in-plane covariance has a positive determinant |
| Optimality.RegisterIsARotation | pythonCodegen/register_three_points.py:78-89 | the matrix that is returned is a rotation |
| Optimality.RegisterIsLeastSquares | pythonCodegen/register_three_points.py:14-24 | no rotation of space and no translation has a smaller sum of squared residuals, whatever the noise |
| Uniqueness.LeastSquaresIsUnique | pythonCodegen/register_three_points.py:14-24 | a rigid motion of space has a residual no larger than that of the result exactly when it is the result |
| Uniqueness.LargestGainIsUnique | pythonCodegen/register_three_points.py:67-76 | only one rotation of space turns the points as well as the in-plane optimum |
| Optimality.GainIsBounded | pythonCodegen/register_three_points.py:67-76 | no rotation of space turns the points better than the in-plane optimum |
| Optimality.GainOfRegister | pythonCodegen/register_three_points.py:72-89 | the result attains that optimum |
| Optimality.RegisterMatchesMeans | pythonCodegen/register_three_points.py:91 | the translation takes mean to mean |
| Optimality.RegisterRecoversMotion | pythonCodegen/register_three_points.py:42-93 | for points that were moved without noise exactly the applied rotation and translation are returned |
| Analyze.SubtractRecombines | bbones/server/analyze.c:161-170 | seconds and microseconds with C's truncation recombine exactly, for either sign |
| Analyze.LatencyIsNowMinusSent | bbones/server/analyze.c:68-84 | a stored latency is the time of arrival less the time of sending, in ms |
| Analyze.PeriodIsBetweenNeighbours | bbones/server/analyze.c:47-55 | a stored period is the time between neighbouring timestamps, in ms |
| Analyze.PeriodsTelescope | bbones/server/analyze.c:51-55 | the summed periods are the span from the first to the last timestamp, monotone or not |
| Analyze.Analyze.CalculateFrequency | bbones/server/analyze.c:37-66 | sum is that of the filled prefix; once n periods are stored avg is (t_n - t_0)/n in ms |
| Analyze.Analyze.CalculateLatency | bbones/server/analyze.c:68-94 | sum is that of the filled prefix; once the buffer is full avg is the mean latency |

## Left out

- Sockets, the terminal, polling, file handling, GPIO, mounting, realtime helpers and error handlers: input and output are byte sequences.
- The call of exit on the LISA path when the logger is not ready, other than as the end of a run.
- Interleavings below a ring call or an assignment, and the memory model of the hardware.
- SerialInput.GetLisaData: a received length byte of 0 or 1 asks the driver for a negative number of bytes, and what happens then is excluded by a precondition.
- SerialInput.SerialPort.Read: the source keeps polling for bytes that do not come; here such a read fails, so that a finite stream has an end.
- SerialInput.ReceiveLoop: a start byte followed by a length of 0 or 1 is excluded by a precondition, for the same reason.
- LisaToPc.Pass: a received frame longer than 239 bytes leaves no room for the timestamp in the buffer and is excluded by a precondition.
- Decoding.Decoder.Deliver: is stated for messages of the size their struct expects; the arm's angle message is sent with four bytes more, so that its timestamp does not line up.
- Decoding.Decoder.Decode: a receive buffer of at least 255 bytes and a length byte of at least 2, below which the source reads in front of the buffer, are preconditions, and the structs have the sizes of a receiver whose timeval takes 16 bytes.
- LisaToPc.PassOffersASealedFrame: the same frames are excluded.
- LisaLoop.Loop: the same frames and received length bytes of 0 and 1 are excluded; its logger makes whole passes between its own.
- TelemetryLink.FromTheLineToTheReplay: the same frames are excluded, by `Loggable`.
- Framing.DataEncode: a message longer than 233 bytes, which with its header would not fit the 255-byte buffer, is excluded by a precondition.
- Framing.AddTimestamp: frames shorter than 4 bytes, and those that leave no room for the timestamp, are excluded by a precondition.
- Framing.StripTimestamp: a frame too short to hold a timestamp, for which the source would move bytes from in front of it, is excluded by a precondition.
- Decoding.Decoder.Receive: has the preconditions of Decode.
- Cse.Caches.CseMatrix: matrices are dense.
- MovingHorizon.Estimator.Step: a cable delay above the horizon makes the source write to a row from the end, through a negative index, and is excluded by a precondition, as is a camera delay of 0.
- MovingHorizon.Estimator.Fill: has the precondition of Step on the delays, although while the window fills a longer cable delay is skipped.
- MovingHorizon.Estimator.ShiftWeights: the stack of square weight blocks is indexed by block, row and column instead of by one combined row.
- Registration.Register: collinear points, for which the source divides by zero, are excluded by a precondition.
- Cse.Caches.HashToCasadiNode: with colliding hashes the recursion may not end, so the method is stated without collisions; the function Rebuild, cut off by fuel, covers the colliding case.
- Cse.Caches.HashNode: variables are merged by identity; merging them by name, which the source can be switched to, is not modelled, nor do the constructors simplify.
- The estimator's states, controls and solver calls, plotting, and the arrival cost, which the script switches off.
- Floating-point rounding, and the wrap-around of a C long in the timestamp arithmetic.
- The wind sensor's text protocol, the line-angle encoder's bit loop, Euler angles, packing of poses into vectors and the second copy of the logger in main_lisa_communication.c: they would add only easy members or the same ones again.
