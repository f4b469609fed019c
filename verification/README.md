# Verified model of the voice IoT SDK's link layer, event list and receive path

A Dafny model of the parts of the SDK that carry data: the UART link layer (frames with CRC-16, a
byte-at-a-time receive machine, stop-and-wait retransmission), the three-priority event list with its
worker thread, the ring buffer between the two UART threads, and the counters and the chunking loop of
the channel above them. `dafny verify dfyconfig.toml` checks all of it.

| file | what it models |
|---|---|
| Bits.dfy | bytes, 16-bit words, exclusive or |
| Crc16.dfy, CrcDetection.dfy, CrcTwoBitErrors.dfy | the table-driven CRC; long division; which errors it notices |
| Frames.dfy | frame layout; filling and checking a frame in place |
| Receiver.dfy | the receive machine, a scanner, and a definition of the frames of a stream; their agreement |
| Link.dfy, LineErrors.dfy | what one frame does to the link state; what the receiver makes of a damaged one |
| Communication.dfy | the link layer as one mutable object |
| Protocol.dfy, ProtocolInvariant.dfy | two endpoints over lossy FIFO channels, and what every step keeps |
| ReliableDelivery.dfy, ProtocolLimits.dfy | what applications may rely on, and runs that show where that ends |
| SendRefinement.dfy | the object's send is a run of the step system, so what is proved of runs holds of the object |
| SendLocks.dfy | any number of sending and answering threads over the two locks, seen as one endpoint |
| ListHead.dfy, PriorityQueues.dfy, EventList.dfy | circular lists on the heap, refining three FIFO queues with strict priority |
| EventListThreads.dfy | adders, clearer, worker and destroyer interleaved |
| RingBuffer.dfy, UartTasks.dfy | the ring, alone and between the two UART threads |
| Channel.dfy | admission counters and audio chunking |

Integers are unbounded, so widths are written out: bytes and 16-bit words are subset types, the sequence
counter and the data counter wrap modulo 256, the packet length and the buffer size modulo 65536, and the
operators on CRC registers are arithmetic on naturals with a recursively defined exclusive or. Calls to the
registered hooks are recorded in order. Frames in the protocol model are real bytes, processed by the same
functions as in the object; the unbounded number of a send exists only in the model.

Where the code does not do what its comments or interface suggest, the model follows the code:

- Reliable delivery needs two conditions, which are stated as hypotheses: an ack taken off the channel is
  for one of the last 256 sends, and fewer than 255 sends are lost altogether between two frames the peer
  accepts. `SuccessForAnother` and `SuccessWithoutDelivery` are runs that violate one each, by one send.
- A frame may be acted on as an acknowledgement although its checksum is wrong, and two flipped bits can make
  one out of a data frame (`BurstCanForgeAck`).
- The "last acked" number starts at 127 rather than at none: `GenuineAckIgnored`.
- The sender admits 14 payload lengths that the receiver always skips (`SentButSkipped`). Lengths from 65520
  on wrap in the guard (`TooLongExactly`): up to 15 bytes of header are written, and they cost the receiver
  the next frame unless they are none (`TruncatedSend`).
- After a mismatch inside the sync word the byte is not tried again as a first sync byte
  (`BrokenSyncSwallowsNextSync`). In every reachable state a frame that fits is found where it stands if and
  only if the index is 0 when its first byte arrives (`FrameFoundExactly`).
- A packet counted by an admission counter whose allocation fails is never uncounted, so 16 failures block
  data packets for good, and one failure blocks START or STOP (`RefusedExactly`, `LossesBlockForGood`).

Hypotheses of the concurrent models: processing one received frame is one step; shared variables are
sequentially consistent. That sends are serial is proved from the send lock (`ThreadsAreOneEndpoint`). In the
step system noise and damaged frames may make the receiver report anything but a valid data frame or an
acknowledgement: for a frame hit by a burst that is what happens to it, unless the burst makes an
acknowledgement of it (`BurstReceived`, `BurstIsDamaged`); `OddFlipsDetected` and `TwoFlipsExactly` say the same
of other errors. What remains assumed is that no piece of a damaged frame happens to be a valid frame.

## Model

| member | source | states |
|---|---|---|
| Crc16.ComputeCrc | sdk/channel/src/uni_communication.c:185-193 | the byte loop over an array returns the CRC of the first `len` bytes |
| Crc16.TableIsRemainder | sdk/channel/src/uni_communication.c:150-183 | every one of the 256 table entries is the remainder, by the generator, of its index moved up 16 places |
| Crc16.TableLinear | sdk/channel/src/uni_communication.c:150-183 | the table maps exclusive or to exclusive or |
| Crc16.CrcIsRemainder | sdk/channel/src/uni_communication.c:150-193 | for every byte string the table-driven loop equals bit-by-bit long division of the message, 16 zero bits appended, by 0x11021 |
| CrcDetection.CrcLinear | sdk/channel/src/uni_communication.c:185-193 | for equal lengths the CRC of the exclusive or is the exclusive or of the CRCs |
| CrcDetection.CrcDetectsBurst | sdk/channel/src/uni_communication.c:185-193 | two different messages of one length that differ only within 16 consecutive bits have different CRCs |
| CrcDetection.CrcInjectiveOnTwoBytes | sdk/channel/src/uni_communication.c:674-679 | on two bytes, as for the length field, equal CRCs mean equal bytes |
| CrcDetection.CrcParity | sdk/channel/src/uni_communication.c:185-193 | the CRC has odd weight exactly when the message has |
| Frames.AssemblePacket | sdk/channel/src/uni_communication.c:476-492 | filling a packet in place leaves exactly the encoded frame: sync, sequence, control, command, length, length CRC, payload, checksum |
| Frames.CalculateChecksum | sdk/channel/src/uni_communication.c:370-375 | writes the CRC of the frame with its checksum field zeroed and changes nothing else |
| Frames.CheckChecksum | sdk/channel/src/uni_communication.c:377-381 | accepts exactly the frames whose checksum field is the expected one, and overwrites that field with it |
| Frames.EncodeThenDecode | sdk/channel/src/uni_communication.c:545-556 | an assembled frame is delimited, its checksum is accepted, and decoding gives back every field |
| Frames.WireLayout | sdk/channel/src/uni_communication.c:72-81 | the assembled frame byte for byte, in numbers: "uArTcP", sequence, control, command, checksum, length, its CRC, each high byte first, payload; the checksum is the CRC of the frame with bytes 10 and 11 zero |
| Frames.DecodeThenEncode | sdk/channel/src/uni_communication.c:545-556 | conversely every delimited frame with a valid checksum is the encoding of what it decodes to |
| Frames.UndetectedExactly | sdk/channel/src/uni_communication.c:377-381 | a change that leaves the length alone passes if and only if the change itself, checksum field zeroed, has the CRC found in that field |
| CrcTwoBitErrors.TwoBitErrorsExactly | sdk/channel/src/uni_communication.c:185-193 | two messages of one length, whatever it is, that differ in exactly two bits have the same CRC if and only if the distance of the bits is a multiple of 32767 |
| Frames.BurstDetected | sdk/channel/src/uni_communication.c:377-381 | any change of a valid frame within 16 consecutive bits outside the checksum field, whichever field it touches, is noticed: a changed length by its own CRC, any other change by the checksum |
| Frames.ValidFrameIsEven | sdk/channel/src/uni_communication.c:377-381 | every valid frame has an even number of one bits |
| Frames.OddFlipsDetected | sdk/channel/src/uni_communication.c:377-381 | any odd number of flipped bits anywhere in a valid frame, length and checksum fields included, leaves something that is not a delimited frame with a valid checksum |
| Receiver.StepIsScan | sdk/channel/src/uni_communication.c:681-765 | one byte: the machine with its index, countdown and growing buffer does what a scanner does that only looks at the bytes of the current frame |
| Receiver.RunIsDeframe | sdk/channel/src/uni_communication.c:681-765 | for every byte stream and every idle state the machine reports exactly the frames and bad headers of a recursive definition without any machine state |
| Receiver.BufferInvariant | sdk/channel/src/uni_communication.c:558-595 | after every byte stream the capacity is 16*(2^k-1), k in 1..10, the stored bytes are those of the current frame and fit, capacity above 1040 occurs only in a payload, and index plus countdown is 16 plus the length |
| Receiver.ReachableIdle | sdk/channel/src/uni_communication.c:575-581 | every reachable state with index 0 is idle, so the theorems from an idle state apply to it |
| Receiver.StreamParsing | sdk/channel/src/uni_communication.c:681-765 | any interleaving of garbage without 'u' and whole frames hands over exactly the frames with payload up to 8161 bytes, in order, and ends idle |
| Receiver.OversizeSkipped | sdk/channel/src/uni_communication.c:688-700 | a frame declaring more than 8161 payload bytes costs exactly its own bytes |
| Receiver.KeptExactly | sdk/channel/src/uni_communication.c:688-700 | from an idle state a frame is handed over if and only if it has at most 8161 payload bytes |
| Receiver.BufferAfterFrame | sdk/channel/src/uni_communication.c:558-595 | after a frame that is handed over the buffer has the smallest size that doubling plus 16 comes by and that holds the frame, if that is at most 1040, and otherwise is given back for 16 bytes |
| Receiver.CorruptionIsLocal | sdk/channel/src/uni_communication.c:705-764 | changing any bytes but sync, length and length CRC leaves all other frames of a stream as they were |
| Receiver.BadLengthSkipped | sdk/channel/src/uni_communication.c:734-742 | a wrong length CRC costs 16 bytes and one nack with the header's sequence number |
| Receiver.FrameFoundExactly | sdk/channel/src/uni_communication.c:681-765 | in every reachable state, whatever came before, the last byte of a frame that fits hands that frame over if and only if the index was 0 at its first byte |
| Receiver.FrameAfterNoiseExactly | sdk/channel/src/uni_communication.c:705-714 | from every state with index below 6, a frame that fits is among those handed over if and only if the index is 0 |
| Receiver.BrokenSyncSwallowsNextSync | sdk/channel/src/uni_communication.c:705-714 | when 1 to 5 bytes of a sync word come just before a frame, that frame is not handed over: its own sync word is lost with them and parsing goes on behind it |
| Link.RoundTrip | sdk/channel/src/uni_communication.c:681-765 | for every packet with payload up to 8161 bytes, feeding the assembled bytes to any idle machine hands over that one frame, valid, with every field intact |
| Link.SentButSkipped | sdk/channel/src/uni_communication.c:494-509 | payloads of 8162 to 8175 bytes pass the sender's guard and are skipped by the receiver |
| Link.TooLongExactly | sdk/channel/src/uni_communication.c:494-509 | the guard refuses exactly payload lengths 8176 to 65519: longer ones wrap and pass |
| Link.TruncatedSend | sdk/channel/src/uni_communication.c:366-375 | a payload of 65520 bytes or more writes 0 to 15 header bytes, for which an idle receiver reports nothing; the next frame is found if and only if no byte was written |
| Link.AckedSetExactly | sdk/channel/src/uni_communication.c:633-642 | the acked flag is set by exactly an ack for the current sequence number that is not the stored one |
| Link.AckedStays | sdk/channel/src/uni_communication.c:633-672 | no processed frame clears the acked flag or touches the sequence counter |
| Link.AckByBytes | sdk/channel/src/uni_communication.c:633-642 | in terms of the bytes of the frame and whatever its checksum: an acknowledgement sets the flag, the stored number and wakes the sender if and only if it has the current number and that is not the stored one; otherwise it does nothing |
| Link.NackByBytes | sdk/channel/src/uni_communication.c:644-651 | a NACK wakes the sender if and only if it has the current number, and does nothing else |
| Link.WrongChecksumByBytes | sdk/channel/src/uni_communication.c:653-658 | any other frame whose checksum is wrong is answered by exactly one NACK frame with its number, and changes nothing |
| Link.BadLengthByBytes | sdk/channel/src/uni_communication.c:734-742 | so is a header with a wrong length CRC |
| Link.DataByBytes | sdk/channel/src/uni_communication.c:660-671 | any other frame: an ACK frame with its number if and only if bit 0 of byte 7 is set; the stored number is cleared if and only if that bit is clear and the command not 0; the application is given command and payload unless the number repeats |
| LineErrors.BurstReceived | sdk/channel/src/uni_communication.c:705-764 | what the receiver makes of a valid frame after a burst: with the sync word intact, a bad header report or the whole frame with a failing checksum; otherwise only shorter pieces |
| LineErrors.BurstIsDamaged | sdk/channel/src/uni_communication.c:633-659 | what a frame hit by a burst is first taken for is damage in the sense of the step system if and only if the burst did not make an acknowledgement of it |
| LineErrors.BurstCanForgeAck | sdk/channel/src/uni_communication.c:633-642 | a burst on an empty data frame that makes the receiver set the acked flag for its current send although the checksum is wrong |
| LineErrors.DamageAnswered | sdk/channel/src/uni_communication.c:653-658 | in the step system damage and noise change nothing at this side and are answered by exactly one NACK frame with their number, except a damaged NACK, which is not answered |
| LineErrors.TwoFlipsExactly | sdk/channel/src/uni_communication.c:377-381 | two flipped bits outside the checksum field leave a valid frame if and only if it is still delimited and their distance is a multiple of 32767, which no frame of up to 4095 bytes has room for |
| Communication.CommProtocol.ReceiveByte | sdk/channel/src/uni_communication.c:681-765 | the object's byte handler is one step of the machine followed by processing of what it hands over; every buffer access is in bounds |
| Communication.CommProtocol.OneFrameProcess | sdk/channel/src/uni_communication.c:624-672 | acks, nacks, checksum, acknowledgement, udp reset and duplicate check as the link function says |
| Communication.CommProtocol.ReceiveUartData | sdk/channel/src/uni_communication.c:767-775 | a buffer of bytes is received byte by byte |
| Communication.CommProtocol.WaitAck | sdk/channel/src/uni_communication.c:403-413 | an unreliable send waits for nothing; a reliable one returns 0 exactly if the flag is set when the wait ends |
| Communication.CommProtocol.WriteUart | sdk/channel/src/uni_communication.c:448-474 | the write loop does the specified rounds of write and wait |
| Communication.CommProtocol.AssembleAndSend | sdk/channel/src/uni_communication.c:498-543 | for every 16-bit payload length: refuses too long payloads unchanged; otherwise consumes a sequence number and sends the encoded packet, cut to its length in 16 bits |
| Communication.ReceivedStream | sdk/channel/src/uni_communication.c:767-775 | from an idle state the hook calls made for a byte stream are those for its frames, one after the other |
| Communication.SendOutcome | sdk/channel/src/uni_communication.c:429-474 | a reliable send stops at the first wait that ends with the flag set and returns 0; otherwise it has written once per wait and returns the timeout error |
| Communication.SendRefusedExactly | sdk/channel/src/uni_communication.c:506-509 | a send returns -9999 if and only if its payload has 8176 to 65519 bytes, and then changes nothing and calls nothing |
| Communication.SilentSend | sdk/channel/src/uni_communication.c:429-474 | when nothing arrives, an admitted reliable send uses up one number, writes the same frame six times and returns -9998 with the flag clear; an unreliable one writes once and returns 0; the frame carries the number the counter had |
| ProtocolInvariant.InvAlways | sdk/channel/src/uni_communication.c:448-672 | at every moment of every run of two endpoints over lossy channels, the invariant relating history, channels, receiver and acknowledgement state holds |
| ReliableDelivery.AtMostOnceInOrder | sdk/channel/src/uni_communication.c:448-474 | over every run, with no window assumption, the application is given sends at most once, in order, each with its own contents |
| ReliableDelivery.DeliveredExactly | sdk/channel/src/uni_communication.c:611-617 | a frame that reached the receiver is given to the application if and only if its 8-bit number differs from that of the one accepted before |
| ReliableDelivery.ReliableDelivery | sdk/channel/src/uni_communication.c:448-474 | with acks and losses inside the 8-bit windows, a reliable send that returned 0 was given to the peer application exactly once, after 1 to 6 writes |
| ReliableDelivery.SuccessDeliversExactly | sdk/channel/src/uni_communication.c:611-642 | one reliable send that succeeded on an ack less than 256 sends old, whatever happened to others: its frame reached the peer, and was given to the application, exactly once, if and only if its 8-bit number differs from that of the frame that reached the peer before |
| ReliableDelivery.SuccessMeansAcknowledged | sdk/channel/src/uni_communication.c:429-474 | with no assumption, success means that a send with the same 8-bit number was acknowledged, and failure that all six writes were made |
| ReliableDelivery.WritesAreIdentical | sdk/channel/src/uni_communication.c:448-474 | every data frame in a channel is byte for byte the encoding of its send |
| ReliableDelivery.SucceedsExactly | sdk/channel/src/uni_communication.c:403-446 | a reliable send returns 0 if and only if, between its first write and its last wake, an acknowledgement with its 8-bit number was received while the stored number was another |
| ReliableDelivery.GenuineAck | sdk/channel/src/uni_communication.c:633-642 | the first ack for the current send sets the flag if and only if the stored number does not mask it |
| ReliableDelivery.GenuineAckNotMasked | sdk/channel/src/uni_communication.c:633-666 | it is not masked among the first 127 sends, after a udp frame, or within 255 sends of the last accepted ack |
| ProtocolLimits.GenuineAckIgnored | sdk/channel/src/uni_communication.c:804-820 | a run on which the first reliable send has number 127, is delivered and acknowledged, and still times out, because the stored number starts at 127 |
| ProtocolLimits.SuccessWithoutDelivery | sdk/channel/src/uni_communication.c:611-617 | a run with exactly 255 lost sends in a row on which the next one succeeds and is not given to the application |
| ProtocolLimits.SuccessForAnother | sdk/channel/src/uni_communication.c:633-642 | a run on which an ack delayed by 256 sends makes a send succeed whose frame never arrived |
| SendRefinement.SendIsRun | sdk/channel/src/uni_communication.c:448-543 | a send by the object, reliable or not, with the other side moving, frames being lost, and bytes and noise arriving in portions that end anywhere, between its steps and during its waits, continues the run of the step system to a state with the same result, link state and number of writes; what the object writes, in order, is what this side puts on its channel, and what it notifies is what its application is given |
| SendRefinement.ReturnedZeroMeansGiven | sdk/channel/src/uni_communication.c:511-543 | when the object's reliable send returns 0, the peer's application has been given that command and payload exactly once, after 1 to 6 writes, the 8-bit numbers being unambiguous on the run |
| SendRefinement.DroppedChunkIsNoise | app/src/uni_uart.c:110-124 | a chunk dropped in the middle of the line is a loss of the frames it cuts, with noise in their place, if and only if the receive machine is idle after the rest of the last one and has made nothing but damage of it |
| SendRefinement.FrameAfterDropExactly | app/src/uni_uart.c:110-124 | after a dropped chunk the next whole frame is found in its place if and only if the machine is idle after the rest of the frame before it |
| SendRefinement.ChannelsHoldWholeFrames | sdk/channel/src/uni_communication.c:448-474 | in every reachable state the channels hold whole frames only |
| SendLocks.NumberIsStable | sdk/channel/src/uni_communication.c:526-543 | over every interleaving of any number of threads, from assembling to the end of a send the counter stays one ahead of the frame's number and no other thread is inside a send |
| SendLocks.UartCarriesWholeFrames | sdk/channel/src/uni_communication.c:457-467 | over every interleaving, frames written byte by byte, the UART carries whole frames one after the other and the beginning of at most one more |
| SendLocks.WritesAreSerial | sdk/channel/src/uni_communication.c:448-474 | over every interleaving sends are numbered in order, the writes of one are contiguous among data frames, identical and at most six |
| SendLocks.CallsReturn | sdk/channel/src/uni_communication.c:429-474 | no deadlock, and the threads take boundedly many steps for the calls and answers made |
| SendLocks.EveryCallCounts | sdk/channel/src/uni_communication.c:498-543 | over every interleaving an admitted send has been assembled, with its command, payload and control byte, as often as it was called, less the calls not come to it, and a control frame has been written whole as often as it was to be, less those under way |
| SendLocks.ThreadsAreOneEndpoint | sdk/channel/src/uni_communication.c:448-543 | every interleaving of all threads with receiving, losses, noise and the other endpoint is a run of the protocol, ending where the threads are; its writes put exactly the data frames on the channel that the threads have written, in order |
| ListHead.ListHead.AddTail | utils/list_head/inc/list_head.h:35-43 | appends at the tail of a circular list and keeps it one |
| ListHead.ListHead.Del | utils/list_head/inc/list_head.h:44-46 | unlinks a link, leaves it alone with itself, and keeps the rest a circular list |
| ListHead.NextPrevInverse | utils/list_head/inc/list_head.h:31-38 | next and prev are inverse at every link of a list |
| ListHead.EmptyExactly | utils/list_head/inc/list_head.h:47-48 | a list is empty exactly when its header points at itself, and otherwise its head is the oldest item |
| EventList.Lane.AddTail | utils/event_list/src/uni_event_list.c:240-251 | list and counter grow together |
| EventList.Lane.RemoveHead | utils/event_list/src/uni_event_list.c:77-84 | the oldest item is unlinked, and list and counter shrink together |
| EventList.EventList.Add | utils/event_list/src/uni_event_list.c:230-251 | appends the event at its level and leaves the other levels alone |
| EventList.EventList.TakeOne | utils/event_list/src/uni_event_list.c:72-84 | the critical section takes the oldest item of the level, unless a higher level has items and the consumer is interruptible |
| EventList.EventList.ConsumeOne | utils/event_list/src/uni_event_list.c:62-90 | consumes a level in order; the handler runs for each item only while the list is running; every item is freed |
| EventList.EventList.ConsumeAll | utils/event_list/src/uni_event_list.c:106-119 | empties all levels, highest first |
| EventList.EventList.Clear | utils/event_list/src/uni_event_list.c:256-268 | frees everything and handles nothing |
| PriorityQueues.TakeIsPopFirst | utils/event_list/src/uni_event_list.c:96-104 | an interruptible take, when it takes, takes the oldest item of the highest level that has any |
| EventListThreads.NoLostWakeup | utils/event_list/src/uni_event_list.c:147-159 | over every interleaving: worker blocked, semaphore at zero and no adder before its signal mean that all lists are empty |
| EventListThreads.AtMostOnce | utils/event_list/src/uni_event_list.c:62-90 | over every interleaving each event is freed at most once and handled at most once, and not while still queued |
| EventListThreads.AllFreedInTheEnd | utils/event_list/src/uni_event_list.c:217-228 | when destruction is complete, and no clearing thread still holds an item, every event ever added has been freed exactly once |
| EventListThreads.RunningListSettles | utils/event_list/src/uni_event_list.c:147-170 | over every run of a running list the worker takes boundedly many steps for the events added, and stops only asleep with the semaphore at zero; then, with no adder before its signal, all lists are empty |
| EventListThreads.EveryEventHandled | utils/event_list/src/uni_event_list.c:62-90 | without clearing, when the worker of a running list has gone to sleep so, the handler has run exactly once for every event ever added |
| EventListThreads.ShutdownCompletes | utils/event_list/src/uni_event_list.c:161-170 | from every reachable state with is_running cleared, whatever adders and clearers do, worker and destroyer take boundedly many steps, four more for each event still added, and one of them can move exactly until the worker has exited and destruction is complete |
| EventListThreads.LooksBeforeLocking | utils/event_list/src/uni_event_list.c:147-150 | with an event waiting and nobody else moving, a worker that reads the counters finds it before it locks |
| EventListThreads.NotBlockedForever | utils/event_list/src/uni_event_list.c:217-221 | a worker waiting after the destroyer's signal has a token to take |
| EventListThreads.FirstInFirstOut | utils/event_list/src/uni_event_list.c:62-90 | over every run what was taken from a level, by whomever, followed by what is queued there, are the events that the run adds at that level, counted from the run alone, in order |
| EventListThreads.WorkerTakesFirst | utils/event_list/src/uni_event_list.c:72-84 | every item the worker takes is the oldest of the highest level that has one at that moment |
| EventListThreads.StoppedMeansNoMoreCalls | utils/event_list/src/uni_event_list.c:85-88 | over every run, once is_running is cleared the handler is called at most once more, and not at all unless the worker had looked at it already |
| EventListThreads.OnlyWorkerHandles | utils/event_list/src/uni_event_list.c:256-268 | over every run only the worker's own step calls the handler, for the event it holds; an event that has been cleared has not been handled |
| RingBuffer.RingBuf.constructor | utils/ringbuf/src/uni_ringbuf.c:43-62 | an empty ring of the requested capacity with one slot more |
| RingBuffer.Create | utils/ringbuf/src/uni_ringbuf.c:124-132 | a size of zero or less is refused |
| RingBuffer.RingBuf.Write | utils/ringbuf/src/uni_ringbuf.c:149-155 | all or nothing: appends the bytes, or returns -1 and changes nothing |
| RingBuffer.RingBuf.Read | utils/ringbuf/src/uni_ringbuf.c:141-147 | all or nothing: takes the oldest bytes, or returns -1 and changes nothing |
| RingBuffer.RingBuf.Peek | utils/ringbuf/src/uni_ringbuf.c:173-175 | as Read, but the contents stay |
| RingBuffer.RingBuf.Clear | utils/ringbuf/src/uni_ringbuf.c:157-161 | the contents are empty |
| RingBuffer.QueueConserves | utils/ringbuf/src/uni_ringbuf.c:141-185 | over every sequence of operations the bytes read or cleared away, followed by the contents, are the bytes written, and the capacity is never exceeded |
| RingBuffer.AnswersExactly | utils/ringbuf/src/uni_ringbuf.c:76-82 | after every sequence of operations, in terms of bytes written and taken out: a write is refused if and only if it does not fit, a read or peek if and only if there is not as much; otherwise the write puts in all its bytes and the reader gets the first bytes not taken out |
| RingBuffer.RingBuf.GetDataSize | utils/ringbuf/src/uni_ringbuf.c:168-171 | the number of bytes held |
| RingBuffer.RingBuf.GetFreeSize | utils/ringbuf/src/uni_ringbuf.c:163-166 | the capacity less the number of bytes held |
| UartTasks.ParsedIsPrefixOfKept | app/src/uni_uart.c:110-139 | over every interleaving, copies split into bytes, the bytes given to the parser are a prefix of the kept chunks, each kept or dropped whole; the rest is in hand or in the ring |
| UartTasks.CheckExactly | app/src/uni_uart.c:112-118 | over every interleaving a chunk is kept if and only if it and what is kept and not taken out make less than 1024 bytes; otherwise it is dropped whole |
| UartTasks.PublishExactly | app/src/uni_uart.c:112-118 | over every interleaving a chunk that passed the check, and no other, becomes readable and counts as kept when its copy is complete |
| UartTasks.MeasureExactly | app/src/uni_uart.c:130-137 | over every interleaving the consumer measures the smaller of 128 and the bytes kept and not taken out, and finds nothing if and only if all that was kept has been parsed |
| UartTasks.OffersAreArrivals | app/src/uni_uart.c:110-119 | over every interleaving each chunk that arrives is decided upon once, in order, except the one in hand |
| UartTasks.NoSlotWrittenWhileReadable | utils/ringbuf/src/uni_ringbuf.c:104-122 | no byte is stored in a slot that the reader may read |
| UartTasks.RepeatedChecksSucceed | utils/ringbuf/src/uni_ringbuf.c:141-155 | over every interleaving, a chunk that passed the producer's check fits until it is published and bytes measured by the consumer stay until released, so the checks inside write and read succeed |
| UartTasks.PipelineFrames | app/src/uni_uart.c:126-140 | whatever the interleaving, the frames handed over are the first of those in the kept chunks, and all of them once nothing is in hand or in the ring |
| Channel.BoundedBacklog | sdk/channel/src/uni_channel.c:64-140 | over every interleaving of arrivals and handlers, allocation succeeding, the counter is the number of waiting data packets, at most 16 without wrap, and at most one START and one STOP wait |
| Channel.BacklogExactly | sdk/channel/src/uni_channel.c:64-140 | what waits and what is lost of each command, over every run, is what a count over the arrivals and handlers of the run alone gives |
| Channel.RefusedExactly | sdk/channel/src/uni_channel.c:64-85 | a packet is refused if and only if it is data, START or STOP and as many of its kind as may wait (16, 1, 1) are waiting or lost to failed allocations |
| Channel.LossesBlockForGood | sdk/channel/src/uni_channel.c:97-101 | after 16 failed allocations of data packets, or one of START or STOP, no packet of that kind is ever admitted again |
| Channel.ChannelState.ReceivePacket | sdk/channel/src/uni_channel.c:87-117 | updates the counters and appends an admitted packet to exactly one of the three event lists: commands above 1000, the commands 100, 107 and 108, all others |
| Channel.ChannelState.HandleEvent | sdk/channel/src/uni_channel.c:202-244 | gives the counter back, except for commands that go to the callback |
| Channel.AudioFeeder.FeedAudioData | sdk/channel/src/uni_channel.c:347-387 | the packets carry exactly the consumed prefix; each has 512 bytes unless the data or the credit ends with it, and goes no further than the credit before the next answer; credit reported is credit left plus bytes submitted, across calls; enough credit means it finishes |
| Channel.PositiveCreditSuffices | sdk/channel/src/uni_channel.c:359-384 | if every answer is positive, as many answers as bytes are enough |

## Left out

- Communication.CommProtocol.WaitAck: real time, the semaphore and its leftover tokens are not modelled; a wait ends after an arbitrary amount of received data, and in the step system at any moment.
- ReliableDelivery.ReliableDelivery: stated for one direction; `MirrorRun` turns every run into one with the sides exchanged.
- SendLocks.ThreadsAreOneEndpoint: in the protocol an acknowledgement is on the channel as soon as its frame is received; when its bytes get through the write lock, among those of data frames, is not tied to that.
- ReliableDelivery.GenuineAck: about the arrival of the ack; that an ack arrives at all is up to the channel.
- EventList.EventList.ConsumeOne: read with nobody else between two critical sections, as are ConsumeAll and Clear; `EventListThreads` interleaves the critical sections.
- EventList.EventList.ConsumeAll: see ConsumeOne.
- EventList.EventList.Clear: see ConsumeOne.
- Channel.ChannelState.HandleEvent: the effect on the counters only; the callback and the other work of the handlers are not modelled.
- SendRefinement.SendIsRun: payloads from 65520 bytes on, which write part of a header, are not sends of the step system.
- Calls that add or clear after EventListDestroy has joined the worker: the code frees the list under them.
- Channel.AudioFeeder.FeedAudioData: credits are non-negative, that is reported values below 2^31 (a larger one becomes a negative packet length), and the loop stops where the code would ask for more credit than there are answers.
- EventListAdd with a priority other than the three constants: the item is never linked.
- Frames with a NULL payload pointer and a non-zero length, which would send uninitialised memory.
- Registration of hooks, init and final, missing hooks, and the sleeping fallback without semaphores, in which nothing is received.
- Failed allocation of receive buffers and frames.
- The UART device itself, its configuration and the select loop; arriving chunks are arbitrary inputs.
- Handlers and senders of the channel without state, logging, and the platform wrappers in hal.
