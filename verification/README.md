# SMuRF processor: model and proofs

The SMuRF processor turns frames of 4096 raw 16-bit samples into averaged packets of 528 channels. A frame is
unwrapped, filtered and averaged; each completed average becomes a packet, which a circular buffer hands to two
reader threads, one of which writes it to rotating files. This project models that chain and proves what it
guarantees over whole runs.

| file | what it models |
|---|---|
| `Words.dfy`, `Wrappers.dfy` | 16, 20 and 32-bit readings of integers, little-endian words, optional values |
| `TesBiasArray.dfy` | sixteen signed 20-bit words packed in 40 bytes |
| `SmurfPacket.dfy` | the 128-byte header, its setters, and its two independent decoders |
| `BiasServer.dfy` | register events of the control server feeding the bias array |
| `PhaseUnwrap.dfy` | unwrapping of one frame |
| `SmurfFilter.dfy`, `FilterLaws.dfy` | the block-average and recursive filter, and what its outputs mean |
| `SmurfProcessor.dfy` | the frame loop: buffers, loss counters, averaging control, emission |
| `FrameAccounting.dfy` | received, lost and out-of-order counts of a run |
| `Windows.dfy` | which frames make up each packet |
| `LoopLaws.dfy` | the whole loop over a run: the configuration in force at each frame, and what each packet holds |
| `LoopHistory.dfy`, `LoopValues.dfy` | which frames complete an average and which the filter then holds; the channel values; all from the frames and the files |
| `SignalMeans.dfy` | from the true signal to the payload |
| `DataBuffer.dfy` | the circular buffer class |
| `Pipeline.dfy`, `PipelineLaws.dfy` | writer and readers as an interleaving transition system, and its guarantees |
| `BufferCalls.dfy` | what the buffer's counters count, and its calls as the steps of the threads |
| `PipelineLosses.dfy` | packets a reader passes unread, against the overwrites counted |
| `DataFile.dfy`, `DataFileLosses.dfy` | file rotation, and what switching file writing off and on loses |
| `DataFileChanges.dfy` | the files when the configured name, limit and extension change on the way |
| `Recorder.dfy` | the file-writing reader: buffer and files together |
| `EndToEnd.dfy` | register events to packet headers, and frames to files |

Code that changes things in place is a class or a method with a loop, proved equal to a function on values; the
theorems are about those functions and the runs built from them.

## How the model reads the code

- Bytes are integers below 256. A mask with 2^k - 1 is a remainder, a right shift a division, a bit set or cleared by
  halving down to it.
- `wrap_counter` and `input_data` are 32-bit and wrap; the averaging counters and the frame-number difference are
  unsigned 32-bit and wrap. `samples_since_clear` that wrapped to zero divides by zero; the model returns -2^31 there.
- `filter_t` is `real`. The cast to `avgdata_t` truncates toward zero; out of range it is undefined in C++, and the
  model takes -2^31. Statements that give a whole payload (`Filter`, `RunThread`, `RecursivePayload`) carry these two
  conventions; `FlatOutputIsMean` and the laws of `SignalMeans.dfy` are for windows that meet neither.
- The filter's row-major blocks of `records * samples` reals are two-dimensional arrays.
- `FrameRecord` holds the header fields the loop decides on beside the header itself; `Popped` is the frame a header
  and its samples stand for. Theorems about runs hold for every sequence of records.
- What re-reading the configuration and mask files gives is an input, one configuration per frame. The loop as a whole
  (`LoopStep`) takes it when the read-config bit asks for it; `Run` is the loop with a configuration that does not
  change, and `FixedConfiguration` says when the two are the same.
- The samples of a frame are those after `gen_test_smurf_data`; `gen_test_mce_data` is modelled.
- A step of the pipeline is one buffer call, one copy of a packet's header or payload, or one decision of a reader loop,
  and is atomic. That is an assumption: the mutex in `doneWriting` only covers the notification.
- `getWritePtr` moves the read pointer of a full reader without the wrap at the end of the buffer that `doneWriting` and
  `doneReading` have. The class and the transition system with `wraps == false` do exactly that; `wraps == true` puts the
  wrap in. `LiteralAdvanceExact` says when the two agree, and `StalledReaderEscapes` shows the difference.

## What was found

- A read pointer leaves the buffer exactly when `getWritePtr` meets a full reader on the last slot; a reader that stalls
  while 2 * size packets are written gets there.
- `getWritePtr` moves a held reader on, and `doneReading` moves it again, so an overtaken read that is finished passes a
  packet that was neither read nor counted as overwritten. On two slots, with packets 0 and 1 written, 0 taken, 2 written
  and the read finished, the reader saw 2 for 0, packet 1 is gone, and one overwrite is counted. In general packets lost
  are overwrites plus overtaken finished reads.
- Received plus lost frames make up the span of frame numbers exactly when no two neighbours are equal: a repeated number
  counts as 2^32 - 1 lost frames.
- A discarded out-of-order frame still becomes the previous frame, so a turn made in the step into it is missed, and
  later values are off by 2^16 until a clear.
- With the file-name extension off, each new part deletes the one before it.
- A changed file name does not restart the count of packets toward the next file, so the file under the new name can be
  closed early; the next packet then opens that name again and deletes it. With two packets to a file, one under "a" and
  two under "b", the first of the two is lost.
- A packet with file writing disabled starts the part numbers again, so the packets after it replace the first part
  files of those before: the part files hold everything exactly when at most one of the sessions between disabled packets
  wrote anything.
- Register channel 0 changes the last element of the server's list and then raises, so the array no longer follows; after
  any events a word of the array is the difference last sent for it.
- The two header decoders disagree exactly on row and rate fields that are zero, for which one substitutes a default.

## Model

| member | source | states |
|---|---|---|
| TesBias.GetWordDecodes | src/tes_bias_array.cpp:55-69 | reading word i yields exactly nibbles 5i to 5i+4, sign-extended, whatever byte follows the 40 |
| TesBias.SetWordIsMapUpdate | src/tes_bias_array.cpp:20-53 | writing word i sets it to the value's low 20 bits and changes none of the other fifteen, the nibble-sharing neighbour included |
| TesBias.GetAfterSet | src/tes_bias_array.cpp:20-69 | write then read returns the sign-extended low 20 bits |
| TesBias.WordsDetermineBytes | include/tes_bias_array.h:20-41 | the sixteen words determine all 40 bytes |
| TesBias.TesBiasArray.StoreWord | src/tes_bias_array.cpp:20-53 | the in-place write gives the packed map update, refuses an index past 15, and leaves every byte outside the 40 alone |
| TesBias.TesBiasArray.FetchWord | src/tes_bias_array.cpp:55-69 | the 32-bit load, shift and 20-bit cut return the word of the reference layout, or the range error |
| SmurfPacket.FieldsDisjoint | include/smurf_packet.h:205-227 | no two header words overlap and none touches the TES bias block |
| SmurfPacket.GetAfterSetLaw | src/smurf_packet.cpp:492-634 | for every setter and every header, the matching getter returns the value reduced to the field |
| SmurfPacket.SetLeavesOthers | src/smurf_packet.cpp:492-664 | every getter that does not read the same bits returns what it did before |
| SmurfPacket.HeaderIsItsFields | include/smurf_packet.h:205-227 | every header is its 21 words, the TES block and the unused bytes end to end, each word at its place with its lowest byte first |
| SmurfPacket.ControlByteIs | include/smurf_packet.h:229-233 | the four control bits and the test mode, as digits of byte 104 |
| SmurfPacket.FileFlagIs | src/smurf_packet.cpp:87-92 | file writing is off iff bit 2 of byte 104 is set |
| SmurfPacket.WithBitIsBitUpdate | src/smurf_packet.cpp:653-664 | setting one bit of a word changes that bit only |
| SmurfPacket.PullBitFieldIgnoresJunk | src/smurf_packet.cpp:685-698 | pulling a field into an uninitialised variable returns the field's bytes alone |
| SmurfPacket.GettersAgree | src/smurf_packet.cpp:38-153 | the two decoders return the same version, counters, channel count, test parameter, row and rate fields, for the last four iff the field is not zero |
| SmurfPacket.ClocksAgree | src/smurf_packet.cpp:59-78 | they return the same sync word (external clock mod 2^32) and 64-bit timestamp (ns + 2^32 s) |
| SmurfPacket.ControlsAgree | src/smurf_packet.cpp:80-107 | and the same four control bits and test mode |
| SmurfPacket.StampLaw | src/smurf_processor.cpp:317-318 | stamping sets the unix time and channel count and no other word |
| SmurfPacket.StampKeepsTes | src/smurf_processor.cpp:191-195 | and the TES block is the array copied in |
| SmurfPacket.StampKeepsControl | src/smurf_packet.cpp:160-163 | and the control byte is the frame's own |
| SmurfPacket.ISmurfPacket.CopyHeader | src/smurf_packet.cpp:482-485 | the packet's header becomes the one given, its payload stays |
| SmurfPacket.ISmurfPacket.CopyData | src/smurf_packet.cpp:487-490 | the payload becomes the one given, the header stays |
| SmurfPacket.ISmurfPacket.SetHeaderWord | src/smurf_packet.cpp:647-651 | the in-place store gives the header with that word set |
| SmurfPacket.ISmurfPacket.GetHeaderWord | src/smurf_packet.cpp:402-406 | the result is the number whose little-endian bytes are the field's |
| SmurfPacket.ISmurfPacket.StoreControlBit | src/smurf_packet.cpp:577-599 | the control-bit setters on the stored header |
| SmurfPacket.ISmurfPacket.StoreTestMode | src/smurf_packet.cpp:601-609 | the test-mode nibble setter on the stored header |
| SmurfPacket.ISmurfPacket.StoreTESBias | src/smurf_packet.cpp:517-520 | the TES word setter on the stored header, through the array class |
| BiasServer.StepKeepsSync | scripts/control-server/python/pyrogue_server.py:630-647 | an event keeps all words equal to their register differences iff it is ignored, accepted, or moves the difference by a multiple of 2^20 |
| BiasServer.FlowDecodes | scripts/control-server/python/pyrogue_server.py:630-647 | if no call is refused word i decodes to the value last given to channel 2i+2 less that last given to channel 2i+1 iff that fits 20 signed bits, and is congruent to it anyway |
| BiasServer.WordIsLastSent | scripts/control-server/python/pyrogue_server.py:630-647 | after any events, refused ones too, word i is what the events last sent for it modulo 2^20, from the events alone |
| BiasServer.SyncIff | scripts/control-server/python/pyrogue_server.py:630-647 | so the array follows the registers iff for each pair the difference of the last values is what was last sent, modulo 2^20 |
| BiasServer.SentIsPair | scripts/control-server/python/pyrogue_server.py:640-645 | if no call is refused what was last sent for a pair is the difference of the values last given to its channels |
| BiasServer.ChannelZeroBreaksSync | scripts/control-server/python/pyrogue_server.py:634-638 | channel 0 is an input on which the flow law fails |
| BiasServer.LocalServer.SendTestBias | scripts/control-server/python/pyrogue_server.py:630-647 | the list and the array after a listener call, and when the call raises |
| BiasServer.LocalServer.Forward | src/smurf_processor.cpp:523-529 | the array word written for a register pair, or none when the arguments are refused |
| PhaseUnwrap.UnwrapFrame | src/smurf_processor.cpp:200-221 | the loop leaves in both arrays the new wrap counters and unwrapped values of every channel |
| PhaseUnwrap.UnwrapBoundIsTight | include/smurf2mce.h:58-61 | the wrap rule follows the true turns for all steps up to a bound iff the bound is at most 0x1FFF |
| PhaseUnwrap.CongruentStep | src/smurf_processor.cpp:210-220 | for any samples wrap counters stay multiples of 2^16 and the value is congruent to the sample |
| PhaseUnwrap.AnchoredStep | src/smurf_processor.cpp:210-220 | one step of at most 0x1FFF keeps the counter equal to the turns since an anchor |
| DigitalFilter.RingIndexNeedsDivisor | src/smurf_processor.cpp:997 | the mixed signed and unsigned ring index is right for all slots and taps iff the ring size divides 2^32 |
| DigitalFilter.SmurfFilter.constructor | src/smurf_processor.cpp:932-942 | a new filter has no history and zero blocks |
| DigitalFilter.SmurfFilter.ClearFilter | src/smurf_processor.cpp:945-952 | clearing forgets the history and zeroes both blocks |
| DigitalFilter.SmurfFilter.EndRun | src/smurf_processor.cpp:954-960 | ends a run by clearing in block-average mode only |
| DigitalFilter.SmurfFilter.Filter | src/smurf_processor.cpp:962-1006 | the output is the reference output for the calls since the last clear or order change, and nothing before them |
| DigitalFilter.SmurfFilter.FlatAverage | src/smurf_processor.cpp:972-979 | row 0 holds each channel's exact sum and the output its truncated mean |
| DigitalFilter.SmurfFilter.Recursive | src/smurf_processor.cpp:982-1003 | the two rings hold the difference equation's inputs and outputs for the whole history |
| DigitalFilter.SmurfFilter.Tap | src/smurf_processor.cpp:993-1001 | the tap loop through the wrapped index computes y(t) of the equation in include/smurftcp.h |
| FilterLaws.FlatOutputIsMean | src/smurf_processor.cpp:970-978 | the block average is the exact mean truncated toward zero, lies between any bounds of its inputs, and never overflows int32 |
| FilterLaws.DifferenceEquation | include/smurftcp.h:159-162 | the output y(t) satisfies a0 y(t) + sum a_r y(t-r) = sum b_r x(t-r), the two sums defined on their own |
| FilterLaws.AmplifiedTowardZero | src/smurf_processor.cpp:1002 | the payload is the exact product of y and the gain taken toward zero when that fits |
| FilterLaws.QuotientTowardZero | src/smurf_processor.cpp:977 | the block average is the exact quotient taken toward zero |
| FilterLaws.FlatSumFitsDouble | src/smurf_processor.cpp:976 | for up to 2^22 calls the running sum stays within 2^53 |
| FilterLaws.RoundedQuotientTruncatesRight | src/smurf_processor.cpp:977 | a division rounded as a double still truncates to the exact result, below 2^22 calls |
| FilterLaws.ChannelsIndependent | src/smurf_processor.cpp:991-1003 | an output depends on its own channel's inputs only |
| FilterLaws.Superposition | include/smurftcp.h:159-162 | before truncation the recursive filter is linear in its inputs, for real factors |
| FilterLaws.SumSuperposition | src/smurf_processor.cpp:974-976 | and so is the running sum of the block average |
| Processor.AverageCounter.Control | src/smurf_packet.cpp:178-220 | the count returned and the counters left, with local count or external sync word |
| Processor.AverageCounter.ClearAverage | src/smurf_packet.cpp:173-176 | the counter is reset, the sync word kept |
| Processor.FrameLoop.constructor | src/smurf_processor.cpp:21-111 | the loop starts in the initial state |
| Processor.FrameLoop.RunThread | src/smurf_processor.cpp:149-342 | over any frames and configuration files the loop's packets and state are those of the step function, and with files that do not change those of the fixed-configuration run |
| Processor.FrameLoop.ProcessFrame | src/smurf_processor.cpp:153-337 | one iteration is one step: state, configuration and packet |
| Processor.FrameLoop.SwapBuffers | src/smurf_processor.cpp:154-161 | the other buffer still holds the frame popped before, discarded or not |
| Processor.FrameLoop.CountFrame | src/smurf_processor.cpp:164-189 | the loss, order and receive counters, with the 32-bit difference |
| Processor.FrameLoop.AcceptFrame | src/smurf_processor.cpp:200-337 | an accepted frame is averaged under the old configuration, and its packet gated by the new one |
| Processor.FrameLoop.AverageFrame | src/smurf_processor.cpp:200-231 | unwrapping, filter, averaging control and clear of an accepted frame; the outputs are those of the calls before the clear |
| Processor.FrameLoop.RereadConfig | src/smurf_processor.cpp:233-242 | the files are read again every 5000 frames while the bit is held, and nothing else changes |
| Processor.FrameLoop.SendFrame | src/smurf_processor.cpp:264-337 | the packet is the stamped header and the outputs, replaced in a test mode, or none when data_frames is zero |
| Processor.SmurfTestData.GenTestMceData | src/smurf_processor.cpp:1079-1125 | the outputs each test mode leaves, with the syncword of the first call remembered |
| Processor.FixedConfiguration | src/smurf_processor.cpp:233-242 | when the files say what is in force wherever a frame asks for a re-read, and no test mode replaces outputs, the loop is the fixed-configuration run |
| Processor.RunsAreTraces | src/smurf_processor.cpp:149-342 | every run, frame by frame, obeys the averaging and unwrapping relations, and remembers the last frame popped |
| LoopLaws.PoppedIs | src/smurf_packet.cpp:44-85 | the frame number is bytes 84 to 87 of the header, the syncword bytes 96 to 99, the clear bit the lowest of byte 104 |
| LoopLaws.ConfigurationInForce | src/smurf_processor.cpp:233-242 | the configuration before any frame is what the files held at the last accepted frame with bit 3 whose place among the accepted ones that held it is a multiple of 5000, from the frames alone |
| LoopLaws.SentIff | src/smurf_processor.cpp:223-320 | a frame is averaged under the configuration before it, and sends a packet iff it completes an average and data_frames is not zero in the one after it |
| LoopLaws.PacketIs | src/smurf_processor.cpp:263-337 | every packet of every run has the stamped header of its frame and the outputs of its calls, or in a test mode zeros, channel numbers, the ramp from the first test syncword in 32 bits, or 10000000 |
| LoopHistory.AveragesAre | src/smurf_processor.cpp:223-251 | under any changes of configuration, a frame completes an average iff it is the num_averages'th since the last clear or completion, or without that brings a new syncword, and the filter then holds the accepted frames since the last clear, block average or change of order |
| LoopHistory.SentWhen | src/smurf_processor.cpp:223-320 | so a packet goes out iff that is so and data_frames is not zero in the configuration after the frame |
| LoopHistory.PacketOfWindow | src/smurf_processor.cpp:223-337 | and its values are the filter's outputs for exactly those frames, each with the configuration in force at it, or the test mode's |
| LoopValues.ValuesAre | src/smurf_processor.cpp:200-242 | under any changes of mask, a channel's value is its sample plus 2^16 for each turn into an accepted frame since the last clear, in 32 bits |
| FrameAccounting.CountingLaw | src/smurf_processor.cpp:164-189 | for every run: received + lost = 1 + last - first + drops + 2^32 * repeats, and received + out-of-order = popped |
| FrameAccounting.AccountingExact | src/smurf_processor.cpp:182-186 | the span of frame numbers is accounted for iff no two neighbours are equal |
| FrameAccounting.LoopCountingLaw | src/smurf_processor.cpp:164-242 | both hold for the whole loop, whatever the configuration files hold |
| FrameAccounting.IncreasingRun | src/smurf_processor.cpp:164-189 | for increasing numbers received + lost = last - first + 1 and nothing is discarded |
| Windows.WindowsPartition | src/smurf_processor.cpp:223-251 | accepted frames fall, in order and once each, into emitted, dropped and open windows |
| Windows.WindowSizes | src/smurf_packet.cpp:197-204 | with num_averages set every packet averages exactly that many frames (as an unsigned number), and the open window has fewer |
| Windows.WindowsEndAtSync | src/smurf_packet.cpp:205-217 | with an external sync word every packet ends at the first accepted frame that changes it |
| Windows.Alignment | src/smurf_processor.cpp:223-251 | at every loop head the filter holds exactly the open window's calls and the averaging counter its size mod 2^32 |
| Windows.CountersAgree | src/smurf_packet.cpp:173-220 | the averaging counter equals the filter's samples since clear in both modes |
| Windows.EmittedAreWindows | src/smurf_processor.cpp:244-337 | what is emitted is one packet per sent window, in order, from that window's calls and last frame |
| Windows.RecursiveHistory | src/smurf_processor.cpp:223-251 | with a recursive filter the history is every accepted frame since the last clear |
| Windows.RecursivePayload | src/smurf_processor.cpp:223-337 | and a packet's payload is the difference equation over that history times the gain |
| SignalMeans.ValuesFollowSignal | src/smurf_processor.cpp:200-231 | for every slow signal, with clears and discards, the value is the true one less 2^16 times the anchor |
| SignalMeans.DataCongruent | src/smurf_processor.cpp:200-221 | for every run whatever, the value is congruent to the raw sample mod 2^16 |
| SignalMeans.LoopDataCongruent | src/smurf_processor.cpp:200-242 | so it is through the whole loop, whatever configurations and masks are read on the way |
| SignalMeans.DiscardMissesTurns | src/smurf_processor.cpp:153-180 | between any two frames without a clear the values lose 2^16 against the signal for each turn made going into a discarded frame, and keep their distance iff those turns cancel |
| SignalMeans.OneDiscard | src/smurf_processor.cpp:153-180 | across one discarded frame the distance is kept iff the step into it made no turn |
| SignalMeans.DiscardedTurnShiftsValues | src/smurf_processor.cpp:153-180 | three received frames on which later values are off by 2^16 |
| SignalMeans.PayloadIsMean | src/smurf_processor.cpp:200-251 | each payload value is the truncated mean of the anchored signal over exactly the packet's window, of num_averages frames when that is set |
| SignalMeans.PayloadIsShiftedMean | src/smurf_processor.cpp:200-251 | without discards that is the true signal less one constant multiple of 2^16 per window |
| SignalMeans.WindowsUnbroken | src/smurf_processor.cpp:226-251 | without discards windows are consecutive frames with no clear before their last |
| DataBuffers.DataBuffer.constructor | src/data_buffer.cpp:4-25 | all pointers at the first slot, all readers empty, all counts zero |
| DataBuffers.DataBuffer.TakeWritePtr | src/data_buffer.cpp:32-47 | every full reader is moved on and counted, by the code's own advance |
| DataBuffers.DataBuffer.FinishWriting | src/data_buffer.cpp:65-91 | pointer, flags and count of every reader after a write |
| DataBuffers.DataBuffer.TakeReadPtr | src/data_buffer.cpp:49-62 | the slot, or an overflow count when empty |
| DataBuffers.DataBuffer.FinishReading | src/data_buffer.cpp:93-112 | pointer, flags and count of that reader after a read, others untouched |
| DataBuffers.DataBuffer.ResetCounters | src/data_buffer.cpp:134-138 | overwrite and overflow counts of all readers cleared |
| DataBuffers.DataBuffer.IsFull | src/data_buffer.cpp:119-122 | whether some reader is full |
| BufferCalls.CountersCount | src/data_buffer.cpp:32-138 | for any sequence of calls the counters are the writes, the reads, and since the last clear the writes that met the reader full and the reads that met it empty |
| BufferCalls.ReadGrantedIffPending | src/data_buffer.cpp:49-62 | in every reachable state getReadPtr gives a slot iff a packet is pending for that reader |
| BufferCalls.AcquireIsGetReadPtr | src/data_buffer.cpp:49-62 | a reader's step is that call: the buffer it leaves, and the slot held iff it succeeds |
| BufferCalls.ReleaseIsDoneReading | src/data_buffer.cpp:93-112 | the step that ends a read leaves the buffer as doneReading does |
| Pipeline.StepKeepsInv | src/data_buffer.cpp:32-112 | every step of every thread keeps the invariant while read pointers are on slots |
| Pipeline.RunKeepsInv | src/data_buffer.cpp:32-112 | so does every interleaving |
| Pipeline.EscapeIsPermanent | src/data_buffer.cpp:41-42 | a read pointer past the end never returns |
| Pipeline.LiteralAdvanceExact | src/data_buffer.cpp:35-44 | the code keeps read pointers on slots iff no getWritePtr meets a full reader on the last slot, and then does what the wrapping advance does |
| PipelineLaws.FlagsDescribeQueue | src/data_buffer.cpp:75-108 | empty, full and the pointer distance against what is pending, with the stale full flag of an open write |
| PipelineLaws.StepRefinesQueue | src/data_buffer.cpp:32-112 | each step acts on the packets not yet passed as a bounded queue that drops its oldest; a finished read passes the oldest, whether or not that is what it read |
| PipelineLaws.Conservation | src/data_buffer.cpp:32-112 | writes = reads + overwrites + the occupancy the pointers show, at every step; the overwrites are OWCnt until it is cleared |
| PipelineLaws.HeldPacketIsIntact | src/smurf_processor.cpp:424-429 | while its overwrite total is unchanged a reader's slot holds the intended packet whole, away from the writer |
| PipelineLaws.ReadPacketIsOldest | src/smurf_processor.cpp:424-429 | the packet a finished read was given is the one doneReading passes iff no overwrite came in between, and then it saw that packet |
| PipelineLaws.OverwriteTakesHeldSlot | src/data_buffer.cpp:35-46 | the next write takes the held slot iff it counts an overwrite |
| PipelineLaws.DeliveryInOrder | src/smurf_processor.cpp:408-444 | completed reads strictly increase, reads never go back even when abandoned, clean ones saw what was written, no overflow is counted |
| PipelineLosses.LossLaw | src/data_buffer.cpp:35-112 | packets passed without a clean read = overwrites + overtaken finished reads, so the overwrite count is the number lost iff every finished read was clean |
| PipelineLosses.OvertakenReadLosesTwo | src/data_buffer.cpp:35-112 | the code's own run on two slots that counts one overwrite and loses two packets |
| PipelineLaws.NeverOverwrittenGetsPrefix | src/smurf_processor.cpp:446-483 | a reader never overwritten has exactly a prefix of what was written, and the rest is pending |
| PipelineLaws.ReadersIndependent | src/data_buffer.cpp:37-112 | what a reader gets does not depend on the other readers |
| PipelineLaws.StalledReaderEscapes | src/data_buffer.cpp:42 | in the code's own run past a stalled reader the getWritePtr after 2 * size - 1 writes moves its pointer past the end, for every size of two or more |
| PipelineLaws.EmptyFlagNeedsTwoSlots | src/data_buffer.cpp:103-105 | even with the wrap the empty flag is right on all runs iff there are two slots or more |
| PipelineLaws.FedHistory | src/smurf_processor.cpp:320-337 | a writer that works through a list has written a prefix of it |
| DataFiles.PartNamesDiffer | src/smurf_processor.cpp:756-758 | different part numbers have different file names |
| DataFiles.PartNameIs | src/smurf_processor.cpp:752-758 | with the extension the name is the configured one, ".part_" and the part number in exactly five decimal digits |
| DataFiles.SmurfDataFile.Write | src/smurf_processor.cpp:721-791 | descriptor, counters, part number and files after a packet, in every branch |
| DataFiles.PartsAreSlices | src/smurf_processor.cpp:778-788 | the reference parts cut the packets into pieces of the limit, in order, nothing lost |
| DataFiles.SessionsLaw | src/smurf_processor.cpp:721-791 | for any sequence of enabled and disabled packets, file i holds the last part numbered i of the last session between disabled packets that got so far, or is as it was |
| DataFileChanges.GoesToConfiguredName | src/smurf_processor.cpp:740-763 | without the extension an enabled packet is the last in the file of the configured name, after what was in it iff that file is open, and other files stay |
| DataFileChanges.EveryCallGoesToItsName | src/smurf_processor.cpp:740-776 | so at every call of any sequence, whatever the configurations before it |
| DataFileChanges.DiskIsLog | src/smurf_processor.cpp:721-791 | for any calls, each with a name, extension and limit of its own, each file is the last one the reference log started under its name, or as it was |
| DataFileChanges.LogHasEverything | src/smurf_processor.cpp:721-791 | the files of that log joined are the enabled packets, once and in order |
| DataFileChanges.NameChangeLosesPacket | src/smurf_processor.cpp:740-788 | three packets and one change of name after which one packet is on no file |
| DataFileLosses.NothingLostIff | src/smurf_processor.cpp:725-791 | written from rest, the part files have as many packets as were enabled iff at most one session between disabled packets wrote anything |
| DataFileLosses.ResumingReplaces | src/smurf_processor.cpp:725-763 | enabled, disabled, enabled leaves one file with the last packet |
| DataFiles.RotationLaw | src/smurf_processor.cpp:740-790 | for any number of enabled packets the last 99999 parts are on disk, each whole under its own name |
| DataFiles.PartNumbersReused | src/smurf_processor.cpp:787 | the last part is on disk under its place modulo 99999, so that the hundred-thousandth part replaces the first |
| DataFiles.ForeignFilesStay | src/smurf_processor.cpp:763 | files of other names are left alone |
| DataFiles.RotationInNumbers | src/smurf_processor.cpp:778-790 | up to 99999 files' worth, part r holds the F packets from rF on, and frame_counter is k mod F |
| DataFiles.FilesHoldEverything | src/smurf_processor.cpp:721-791 | the part files one after the other are the packets written |
| DataFiles.NoExtensionKeepsLastPart | src/smurf_processor.cpp:756-763 | without the extension the file holds the last part only, so everything iff there is one part |
| Recorder.PlayIsRun | src/smurf_processor.cpp:446-482 | with the files in the state the buffer runs as it does without them |
| Recorder.FilesFollowHistory | src/smurf_processor.cpp:446-482 | over every interleaving without an overwrite the files are what write_file makes of a prefix of the packets written, once each, between write_file and doneReading too, and the rest is pending |
| EndToEnd.PacketsReportBias | src/smurf_packet.cpp:292-295 | for all inputs a packet reports, for each TES word, what the calls before its completing frame was popped last sent, and if none of them was refused the difference of the values last given to its two channels, both as signed 20-bit numbers |
| EndToEnd.LoopPacketReportsBias | src/smurf_packet.cpp:292-295 | the same for every packet of the whole loop, whatever the configuration files hold |
| EndToEnd.EmittedKeepFlag | src/smurf_processor.cpp:725 | a packet has file writing off iff the frame that completed it does |
| EndToEnd.FramesReachDisk | src/smurf_processor.cpp:446-482 | over every interleaving, if the frames that complete packets have file writing on, the part files, then what is pending and not in a file, then what is still to be buffered, are exactly the packets emitted |

## Left out

- Processor.FrameLoop.RunThread: samples are taken as they are after `gen_test_smurf_data`, whose random and sine modes are not modelled; parsing of the configuration and mask files is not either, so each re-read gives some configuration and some mask with entries below 4096, which is what `read_mask` stores.
- Processor.FrameLoop.ProcessFrame: the same.
- Processor.FrameLoop.AcceptFrame: the same.
- Runs across a configuration change: the laws of windows and means are for one configuration, and so is `SessionsLaw`; those of counters, values, averages, packets and files (`LoopLaws`, `LoopHistory`, `LoopValues`, `DataFileChanges`) are not.
- Clocks: the unix time of a packet is an input; time statistics, the jump log, debug printing and the delay of test mode 15 have no part in the results.
- Threads: condition-variable waits, timeouts, shutdown and weak-memory races are outside the atomic steps.
- Queue and framework: `acceptFrame`, the Rogue queue and the Python module export; frames arrive complete and of the expected length.
- Failures of `malloc`, `open` and `write`, and real file descriptors.
- Rounding in the recursive filter: coefficients and states are exact reals. For the block average see FlatSumFitsDouble and RoundedQuotientTruncatesRight.
- Frame and buffer counters of 64 bits are unbounded numbers.
- `a[0] == 0` and filter orders of 16 or more are excluded, since the code would divide by zero or read past its arrays.
- The rest of the control server, its GUI and scripts.
