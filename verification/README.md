# Event library and RTP streaming: a verified model

This project models, in Dafny, the concurrent and the byte-level core of the streaming server in
`src/libs`, and proves what that code promises.

**The event library** (`src/libs/pevents.cpp`). Win32-style events on POSIX mutexes: auto-reset and
manual-reset events, single waits, and waits for any or all of several events. `Pevents.dfy` is a
transition system over any number of threads, events and waits. Its processes are the calls in
progress: a thread runs one library call at a time, so the program counter of a call is that of its
thread. Every `WaitForMultipleEvents` call owns one waiter record, which carries its counter; a
`SetEvent`, `DestroyEvent` or scanning call that owns an event's mutex is described by the event's
`holder`. One action runs from one mutex operation to the next. `trylock` fails when its mutex is
held, and may fail when the clean-up of another event has just locked the same waiter; condition
variables may wake spuriously, and a timer may expire at any moment. An entry whose reference
`SetEvent` has given up but not yet removed is *in transit* (`given`).

- `PeventsInvariant`, `PeventsPatch` and `PeventsSteps` hold the inductive invariant and its
  preservation; `PeventsTheorems`, `PeventsFifo` and `PeventsDeadlock` what follows for every run.
- `PeventsRuns` builds runs out of calls. With it `PeventsTimeouts`, `PeventsCycles` and
  `PeventsDestroy` prove exactly when a promise of the library can fail: for every argument list either
  no run breaks it, or a run that does is constructed.
- `PeventsSignals` makes the signal to a waiter, which `SetEvent` sends after it has released the
  waiter's mutex, a step of its own, and lets it wake only who sleeps; `PeventsLateSignals` tells when
  such a signal comes after the record was deleted.
- `PeventsCalls` is the library once more as imperative code on the shared records. Its small methods
  are the code's critical sections, each proved to be one step of the transition system; its large ones
  are whole calls that meet no contention, with what they return stated outright.
- `PeventsThreads` runs the same calls under interference: before each of its own steps (`Gap`) other
  threads take any steps that the mutexes leave them, except those that the caller has to exclude. Each
  call returns its log (`PeventsLogs`): its own steps and the pauses it left to others, in order, a run of
  the transition system. A call steps only right after a pause, unless nothing is left of the others'
  steps, and leaves two pauses in a row only when it cannot go on.

**The media pipeline** (`RtpFragmenter`, `Packager`, `Sender`, `Receiver`, `Unpackager`,
`rtp/RtpHeaders.h`). A frame is cut into fragments, wrapped in RTP headers (section 5.1 of RFC 3550),
queued with drop-tail, sent, and reassembled by marker bit. The classes are imperative, on arrays, and
proved against functions on values; `Pipeline.dfy` puts the two ends together, `Sender.dfy` the bounded queue between
them under every interleaving of producers, sending thread and destructor. The unpackager copies without
a check into 1500000 bytes: `ReceiveAll` is the receiver that either gets to a state or overruns its
buffer, `Losses.dfy` the exact bound on the loss that the buffer stands. `RtpHeaders.dfy` has the
bit-fields with their byte order, the 24-bit fields, and the REMB bit-rate codec.

**The RTSP request parser** (`TcpConnection::ParseRtspRequest`) and **the port search**
(`Streamer::InitTransport`). `Rtsp.dfy` gives the parser as a function of the request buffer and as a
class with the index loops of the source; `RtspRequests.dfy` prints requests (sections 6.1, 12.17 and
12.39 of RFC 2326), with or without a URL, says what each means, and proves that parsing gives just that.

No proof uses automatic induction: every lemma to which Dafny would apply it carries
`{:induction false}`, since the hypothesis it adds also speaks of values that are not of the parameter's
type.

## What holds only under a condition

The code is modelled as it is. Where a promise fails, the exact condition is proved.

- A `WAIT_TIMEOUT` from a wait-any can hide a signal that was taken if and only if the timeout is finite
  and not zero, and the list is not empty (`TimedOutWithSignalExactly`). The returned index tells the
  two cases apart (`WaitAnyTakesExactlyOne`).
- A wait-all can return `WAIT_TIMEOUT` although it took every listed event if and only if it has a
  timeout: always with zero, and with a finite one unless the list is empty (`TimedOutWithAllExactly`).
- Multi-waits over a given set of argument lists can deadlock with `SetEvent` calls if and only if no
  global order fits all the lists (`DeadlocksExactly`); in particular with any two lists that name two
  events in opposite orders, and with any list that repeats an event.
- `DestroyEvent` deletes the event with one entry for each waiter whose mutex its `trylock` found held,
  and the reference of such an entry is never dropped (`LeftBehind`, `LeakIsForever`). Called while no
  mutex is held, it can leave an entry behind if and only if a waiter with an entry at the event has one
  at another event that is not deleted, too (`LeaksExactly`, `PolledTwoCanLeak`).
- A signal to a waiter goes to a deleted record if and only if its call has returned and no event has an
  entry of it (`LateExactly`). That can happen to a multi-wait if and only if it may wait, and lists an
  event if it waits for all, or some event just once if it waits for any (`LateSignalsExactly`).
- The receiver's buffer is not overrun if and only if the bytes received between two received markers,
  or since the start or the last marker, never exceed 1500000 (`ReceivedExactly`). A run without loss
  meets this if and only if every frame does by itself (`RoundTrip`). All losses with at most n markers
  lost in a row are stood if and only if every frame fits behind what up to n frames before it can leave
  in the buffer (`LossFitsExactly`), a condition on the sizes of the frames alone; all losses whatever,
  the sender's drops included, if and only if this holds for every n (`AnyLossFitsExactly`).
- A frame is stamped from its 64-bit dts if and only if that is no multiple of 2^32: `int dts` is
  narrowed before it is compared with 0, so every multiple is replaced by the clock
  (`TimeIsDtsExactly`).
- A frame's time is recovered if and only if the sender's 32-bit clock had wrapped equally often at it
  and at the first frame (`MediaClock`, `RoundTrip`).
- The REMB precision bound holds if and only if the rate is below 2^32, for every exponent for which
  the decoder's 32-bit shift is defined (`RembPrecisionExactly`).
- A printed request is accepted if and only if its method and number have at most 198 characters and both
  parts of its path at most 199 (`AcceptedExactly`); a refused one has set the members before the first
  field that does not fit (`ParsedExactly`).
- After any run of parsed requests on a connection the host buffer reads as the last host part, or as
  nothing if that request named none, if and only if no earlier one was longer (`HostReadBackExactly`): no
  terminator is written after it.
- A request whose URL ends with the host, or that has nothing before the protocol, is refused, after its
  command type has been taken over (`NoPathIsRefused`).
- The end of the RTP header is found if and only if the packet has no extension, or the two bytes that the
  code reads behind the fixed header are the extension's length, as they are without contributing sources
  (`HeaderLengthExactly`).
- A frame without bytes never ends the packager's loop, which goes on sending bare headers
  (`ReceiveEmptyPacket`); every other frame does (`ReceivePacket`).
- The sender's destructor clears `sending_` without a notification. Its join ends without a spurious
  wake-up if and only if the sending thread is not asleep unnotified, nor between its test and its lock
  with an empty queue (`JoinEndsExactly`).

Preconditions that the code needs but does not check are preconditions here: a frame is not empty, a
received packet is at least as long as its header says (`Unpackager.Readable`), a queued packet fits
1500 bytes, the line with the client's ports fits 1024, the request
buffer holds a NUL somewhere (`strstr` reads the uninitialised rest of the buffer), a request does not
start with a blank (the caller filters on the first character, `src/libs/TcpServer.cpp:91`),
`DestroyEvent` is called when no running multi-wait lists the event, and none starts to. The overlapping
`strcpy(CP,pCP)` of `src/libs/TcpConnection.cpp:349` is taken to move the text.

## Model

| member | source | states |
|---|---|---|
| PeventsSteps.StepInv | src/libs/pevents.cpp:70-520 | every step of every call keeps the invariant of events, entries, calls, reference counts, positions, history and ledgers |
| PeventsSteps.RunInv | src/libs/pevents.cpp:70-520 | the invariant holds at the end of every run |
| PeventsPatch.PatchKeeps | src/libs/pevents.cpp:249-286 | rewriting one event and one waiter under local conditions leaves the invariant of all others intact |
| PeventsSteps.NamedIsLive | src/libs/pevents.cpp:81-95 | a registered entry names an existing, undeleted waiter and a position of its call that lists this event |
| PeventsTheorems.RefCountsExact | src/libs/pevents.cpp:335-346 | in every reachable state a reference count is 1 for the running call plus the entries naming the waiter over all events, also those left behind in deleted ones; the record is deleted exactly at 0, and exactly once |
| PeventsTheorems.EntriesNameLiveWaiters | src/libs/pevents.cpp:280-281 | no entry whose reference is held ever names a deleted waiter |
| PeventsTheorems.AccessesAreLive | src/libs/pevents.cpp:390-425 | every waiter locked, tested or updated under its mutex is undeleted and has a reference to drop, so the `RefCount >= 0` assertions hold |
| PeventsTheorems.SignalsConserved | src/libs/pevents.cpp:375-449 | over every run, signals sent to an auto-reset event = signals consumed + merged into a true state + discarded by ResetEvent + 1 if latched |
| PeventsTheorems.HandOverKeepsLatchedSignal | src/libs/pevents.cpp:409 | clearing the state on a hand-over never destroys an earlier latched signal |
| PeventsTheorems.SignalledMeansUnregistered | src/libs/pevents.cpp:439-449 | while the mutex of a signalled event is free, nobody is registered there |
| PeventsTheorems.NoLostWakeup | src/libs/pevents.cpp:260-281 | a live call that lacks a scanned position is registered at that event, which is not signalled while its mutex is free |
| PeventsTheorems.WaitAllAccounting | src/libs/pevents.cpp:234-286 | `EventsLeft` of a running wait-all = `RefCount` - 1 + unscanned positions, never negative |
| PeventsTheorems.WaitAllGetsEverySignal | src/libs/pevents.cpp:411-417 | a wait-all receives at most one signal per position, and exactly one for each if it returns 0 |
| PeventsTheorems.ZeroTimeoutWaitAllTimesOut | src/libs/pevents.cpp:291-294 | a wait-all that may not wait always returns WAIT_TIMEOUT |
| PeventsTheorems.WaitAnyTakesExactlyOne | src/libs/pevents.cpp:308-348 | a wait-any ends with index i != -1 if and only if it received exactly one signal, from events[i]; it never takes any other |
| PeventsTimeouts.TimedOutWithSignalExactly | src/libs/pevents.cpp:318-334 | a wait-any on a given list and timeout can return WAIT_TIMEOUT although it took a signal if and only if the timeout is finite, not zero, and the list is not empty; for each such list a run is built |
| PeventsTimeouts.TimedOutWithAllExactly | src/libs/pevents.cpp:289-330 | a wait-all can return WAIT_TIMEOUT although it took every position if and only if its timeout is zero, or is finite and the list is not empty; for each such list a run is built |
| PeventsTimeouts.RunTimeoutOk | src/libs/pevents.cpp:289-348 | over every run: a wait-any that may not wait never times out with a signal, and a wait-all over nothing never sleeps and times out only if it may not wait |
| PeventsFifo.FifoStep | src/libs/pevents.cpp:383-437 | every step is a step of plain FIFO queues of waiters still waiting: a hand-over serves the head, a finished call leaves all queues at once, expired entries cannot be observed |
| PeventsFifo.FifoRun | src/libs/pevents.cpp:70-101 | every run of the library is a run of the plain FIFO queues |
| PeventsFifo.LatchedMeansNobodyWaits | src/libs/pevents.cpp:439-449 | SetEvent leaves a signal behind only if no live waiter is queued |
| PeventsDeadlock.SetterWaitsForLater | src/libs/pevents.cpp:386-391 | behind a setter that waits for a blocked waiter there is only a later event of the global order |
| PeventsDeadlock.DeadlockFree | src/libs/pevents.cpp:243-286 | no run whose multi-waits list distinct events in one global order reaches a cycle of calls blocked on mutexes |
| PeventsDeadlock.BlockedCallsAreServed | src/libs/pevents.cpp:243-286 | in every such run a blocked call waits, along owners of mutexes, for a call that can take its next step |
| PeventsCycles.DeadlocksExactly | src/libs/pevents.cpp:243-286 | multi-waits with a given set of argument lists can reach a cycle of calls blocked on mutexes if and only if no global order fits all lists |
| PeventsCycles.OppositeOrdersDeadlock | src/libs/pevents.cpp:249-255 | any two lists that name two events in opposite orders reach such a cycle |
| PeventsCycles.RepeatedEventDeadlocks | src/libs/pevents.cpp:249-255 | so does any list that repeats an event, by itself |
| PeventsDestroy.LeftBehind | src/libs/pevents.cpp:70-101 | whatever other threads do, `DestroyEvent` deletes the event with exactly one entry for each failed `trylock` |
| PeventsDestroy.LeakIsForever | src/libs/pevents.cpp:352-370 | an entry left in a deleted event stays there in every later state, and its waiter record is never deleted |
| PeventsDestroy.AloneLeavesNothing | src/libs/pevents.cpp:352-370 | if no waiter with an entry at the event has one at another event, no run leaves an entry behind |
| PeventsDestroy.LeaksExactly | src/libs/pevents.cpp:70-101 | called while no mutex is held, `DestroyEvent` can leave an entry behind if and only if that condition fails |
| PeventsDestroy.PolledTwoCanLeak | src/libs/pevents.cpp:215-373 | a wait-any on two events that may not wait and finds neither signalled reaches a state where destroying the first can leak |
| PeventsSignals.SleepersAreNotified | src/libs/pevents.cpp:308-331 | in every reachable state a sleeping multi-wait that has what it waits for was signalled and will run, or the SetEvent that served it is about to signal it; so no notification is lost between lines 425 and 428 |
| PeventsSignals.GoesOk | src/libs/pevents.cpp:390-437 | with signals as separate steps every run keeps the invariant, that fact, and what is owed to whom |
| PeventsSignals.Projects | src/libs/pevents.cpp:383-504 | a run with separate signals is a run of the transition system without them |
| PeventsLateSignals.LateExactly | src/libs/pevents.cpp:425-429 | in every reachable state the signal a SetEvent owes goes to a deleted record if and only if the call has returned and its last reference is dropped |
| PeventsLateSignals.LateSignalsExactly | src/libs/pevents.cpp:417-429 | for given arguments a run with such a late signal exists if and only if the timeout is not zero and the list is not empty (wait-all) or names some event exactly once (wait-any); it is built for each such list |
| PeventsCalls.EventLib.CreateEvent | src/libs/pevents.cpp:104-124 | a new event of the given kind and state, nobody registered; all others unchanged, whatever mutexes are held |
| PeventsCalls.EventLib.SetEvent | src/libs/pevents.cpp:375-507 | uncontended: the event stays signalled exactly if it is manual-reset or nobody live was queued, and then its list is empty; otherwise the head of the queue got the signal |
| PeventsCalls.EventLib.SetAutoEvent | src/libs/pevents.cpp:383-450 | uncontended: the head of the queue of live waiters is served and no other; with an empty queue the signal is kept |
| PeventsCalls.EventLib.SetManualEvent | src/libs/pevents.cpp:451-504 | uncontended: everybody in the queue is served, in order; the event stays signalled with an empty list |
| PeventsCalls.EventLib.ResetEvent | src/libs/pevents.cpp:509-520 | only the state of this event becomes false, whatever other mutexes are held |
| PeventsCalls.EventLib.RemoveIfExpired | src/libs/pevents.cpp:70-101 | one entry is dropped exactly if its waiter's mutex is free and it no longer waits; no queue changes |
| PeventsCalls.EventLib.RemoveExpiredWaits | src/libs/pevents.cpp:258 | uncontended: the clean-up keeps, in order, exactly the entries that are not expired; no queue changes |
| PeventsCalls.EventLib.WaitForEvent | src/libs/pevents.cpp:126-206 | uncontended: a signalled event is taken, an auto-reset one cleared; otherwise a zero timeout returns WAIT_TIMEOUT and any other sleeps |
| PeventsCalls.EventLib.WaitForMultipleEvents | src/libs/pevents.cpp:215-349 | uncontended: a wait-any takes the first signalled event of the list and nothing else; a wait-all takes every available position and succeeds exactly if that was all, unless it may not wait |
| PeventsCalls.EventLib.StartWait | src/libs/pevents.cpp:217-286 | uncontended: the scan of all positions, as far as a satisfied wait-any |
| PeventsCalls.EventLib.FinishWait | src/libs/pevents.cpp:334-348 | the call returns its result and index, stops waiting, drops its reference; the record is deleted at zero, whatever other mutexes are held |
| PeventsCalls.EventLib.DestroyEvent | src/libs/pevents.cpp:352-373 | with no running call listing the event and no contention, no entry is left |
| PeventsLogs.OthersKeep | src/libs/pevents.cpp:243-286 | a step of another thread changes nothing that a running call relies on, nor makes an unused event used |
| PeventsLogs.LogIsRun | src/libs/pevents.cpp:126-507 | a call's log, its own steps and those that others took in its pauses, is a run of the transition system from the state it started in |
| PeventsLogs.PausesInOrder | src/libs/pevents.cpp:243-286 | the pauses of a call are given to the other threads in order, each with the list meant for it |
| PeventsThreads.WaitForMultipleEvents | src/libs/pevents.cpp:215-349 | with any steps of other threads before each of its own, and no own steps but those of one multi-wait on its own record and list: a wait-any that returns took exactly the signal its index says, or none; a wait-all that returns 0 received one signal per position; without a timeout only success is returned; a call that does not return has seen all steps of others, and waits for a mutex or sleeps without what it waits for |
| PeventsThreads.SetEvent | src/libs/pevents.cpp:375-507 | likewise: the own steps are those of one SetEvent, one entry and then rounds over the front entries; a call that returns took effect as if at one moment: it handed its signal to the head of the queue of live waiters, or kept it with nobody left in the queue (always so for manual-reset events); for an auto-reset event there is one hand-over, which ends the call, or none; a call that does not return waits for a mutex, and has handed nothing over if the event is auto-reset |
| PeventsThreads.SetCountsOnce | src/libs/pevents.cpp:375-380 | a call of SetEvent adds one to the ledger of signals sent to its event, besides the calls of others during it |
| PeventsThreads.WaitForEvent | src/libs/pevents.cpp:126-206 | likewise: success means one own step, at which the event was signalled and was taken; a timeout takes nothing, needs a time limit, and with a zero one a moment at which the event was locked or not signalled, with another one a moment at which it was not signalled; a call that does not return waits for the mutex or the signal when the others' steps are used up |
| PeventsThreads.ResetEvent | src/libs/pevents.cpp:509-520 | likewise: a call that returns has cleared the state in its one step; another has done nothing and waits for the mutex |
| PeventsThreads.DestroyEvent | src/libs/pevents.cpp:352-373 | likewise: the own steps are one lock, one try for each entry there was, one end; the event is deleted with one entry for each waiter that could not be locked, and with none if no waiter with an entry there has one at another event |
| PeventsThreads.SweepAndPoll | src/libs/pevents.cpp:258-285 | under interference, also with an empty list, the clean-up ends, and the scan moves on by one position |
| PeventsThreads.ResultsHold | src/libs/pevents.cpp:334-348 | what the theorems on runs promise for a call that has returned |
| RtpHeaders.WireLayout | src/libs/rtp/RtpHeaders.h:62-74 | the bit-fields and swapped words in memory are the fixed header of section 5.1 of RFC 3550, for all field values |
| RtpHeaders.ViewOfMemory | src/libs/rtp/RtpHeaders.h:62-149 | reading the bytes written gives every field back, whatever follows |
| RtpHeaders.MemoryOfView | src/libs/rtp/RtpHeaders.h:62-149 | writing what was read gives the twelve bytes back |
| RtpHeaders.HeaderLengthExactly | src/libs/rtp/RtpHeaders.h:162-164 | the header length is that of section 5.3.1 of RFC 3550 if and only if there is no extension or the bytes at its fixed offset are its length; with contributing sources alone, or an extension alone, it always is |
| RtpHeaders.RtpHeader.SetMarker | src/libs/rtp/RtpHeaders.h:111-113 | on the wire the top bit of the second byte becomes the marker and no other bit changes; the getter returns the bit kept |
| RtpHeaders.RtpHeader.SetPayloadType | src/libs/rtp/RtpHeaders.h:129-131 | on the wire the low seven bits of the second byte become the type and no other bit changes; the getter returns the type modulo 128 |
| RtpHeaders.RtpHeader.SetSeqNumber | src/libs/rtp/RtpHeaders.h:132-137 | the getter returns the number set; no other field changes |
| RtpHeaders.RtpHeader.SetTimestamp | src/libs/rtp/RtpHeaders.h:138-143 | the getter returns the time set; no other field changes |
| RtpHeaders.RtpHeader.SetSSRC | src/libs/rtp/RtpHeaders.h:144-149 | the getter returns the source set; no other field changes |
| RtpHeaders.Low24 | src/libs/rtp/RtpHeaders.h:177-182 | both 24-bit fields, sign-extending or not, return the low 24 bits of every 32-bit number |
| RtpHeaders.AbsSendTimeExtension.SetAbsSendTime | src/libs/rtp/RtpHeaders.h:180-182 | the getter returns the time modulo 2^24 |
| RtpHeaders.RtcpHeader.SetLostPackets | src/libs/rtp/RtpHeaders.h:377-382 | the getter returns the count modulo 2^24, through a signed field |
| RtpHeaders.RtcpHeader.FindExponent | src/libs/rtp/RtpHeaders.h:439-444 | the loop ends, without overflow, at the least exponent that leaves fewer than 0x3FFFF units |
| RtpHeaders.RtcpHeader.SetREMBBitRate | src/libs/rtp/RtpHeaders.h:438-450 | the fields read back are the least exponent, below 64, and the rate shifted by it, below 2^18 |
| RtpHeaders.RembCodec | src/libs/rtp/RtpHeaders.h:438-461 | for b < 2^32 decoding the encoded rate gives d <= b with 131071 (b - d) <= b, and d = b below 0x3FFFF |
| RtpHeaders.RembPrecisionExactly | src/libs/rtp/RtpHeaders.h:451-453 | that bound holds if and only if b < 2^32, for exponents below 32 |
| RtpHeaders.RembIdempotent | src/libs/rtp/RtpHeaders.h:438-461 | encoding a decoded rate again decodes to the same rate |
| RtpHeaders.RembMonotone | src/libs/rtp/RtpHeaders.h:438-461 | a larger rate is never decoded to a smaller one |
| Fragmenter.Partition | src/libs/rtp/RtpFragmenter.cpp:36-54 | ceil(n/1099) contiguous ordered fragments, all but the last of 1099 bytes, the last 1 to 1099, only the one at 0 marked first |
| Fragmenter.DrainAll | src/libs/rtp/RtpFragmenter.cpp:24-67 | draining all fragments gives the input back |
| Fragmenter.RtpFragmenter.CalculatePackets | src/libs/rtp/RtpFragmenter.cpp:36-54 | the queue filled by the loop is that partition |
| Fragmenter.RtpFragmenter.GetPacket | src/libs/rtp/RtpFragmenter.cpp:24-34 | the next fragment's bytes are copied, the rest of the buffer unchanged; `lastPacket` turns true exactly on the final one; an empty queue writes nothing |
| Packager.WrapHeader | src/libs/Packager.cpp:71-82 | a packet starts with the RFC 3550 header for version 2, type 96, its marker, number, time and SSRC 55543 |
| Packager.WrapFields | src/libs/Packager.cpp:71-82 | a receiver reads all these fields and the payload back |
| Packager.PacketNumbers | src/libs/Packager.cpp:68-93 | packet k of a frame has number start + k and 1 to 1099 bytes, and is marked exactly if it is the last |
| Packager.FragmentsAreChunks | src/libs/Packager.cpp:68-93 | the packets of the fragmenter's queue are the consecutive chunks of the frame |
| Packager.TimeIsDtsExactly | src/libs/Packager.cpp:55-78 | a frame is stamped with 90 times its 64-bit dts, modulo 2^32, if and only if the dts is no multiple of 2^32 (or the clock happens to give the same stamp); its time is its dts if and only if that also fits an `int` (or likewise); a multiple of 2^32 takes the clock and 90 times it as the stamp, any other dts the `int` it is congruent to |
| Packager.Packager.ReceivePacket | src/libs/Packager.cpp:46-93 | the loop ends, and the sink got exactly the packets of the frame, numbered on from the frame before and stamped from the narrowed dts |
| Packager.Packager.ReceiveEmptyPacket | src/libs/Packager.cpp:68-93 | for a frame without bytes no number of rounds ends the loop, and every round sends a header without payload or marker |
| Packager.Packager.SendFragment | src/libs/Packager.cpp:68-93 | one round sends the next fragment behind its header, and tells whether it was the last |
| Unpackager.Unpackager.ReceiveRtpPacket | src/libs/Unpackager.cpp:32-92 | the payload is appended in the buffer; a marker hands over the whole frame, stamped from the first marked packet, and empties it |
| Pipeline.ReassembledExactly | src/libs/Unpackager.cpp:32-92 | for any run of packets, lost, repeated or out of order: frame n is the payloads from behind marker n-1 up to marker n, its time that of its own marked packet minus that of the first marked packet, in whole milliseconds; the rest is pending |
| Pipeline.MarkersAtExactly | src/libs/Unpackager.cpp:50-58 | those markers are at all positions of marked packets, and no other |
| Receiver.Receiver.HandleReceive | src/libs/Receiver.cpp:33-45 | the bytes received go to the unpackager, and more are waited for exactly if there were any |
| Receiver.Receiver.Init | src/libs/Receiver.cpp:19-45 | fed with the datagrams up to the first empty one the unpackager ends in the state that they lead to, if its buffer suffices |
| Receiver.RunArrives | src/libs/Receiver.h:24 | the packets of a run, whatever others are lost, fit the socket's 1500 bytes and arrive whole |
| Pipeline.FeedWrapped | src/libs/Unpackager.cpp:32-56 | every packet made by the packager is readable, and the bytes have the effect of what was put in |
| Pipeline.FrameFed | src/libs/Unpackager.cpp:50-92 | all packets of a frame together act like one marked packet with all its bytes |
| Pipeline.ReceivedExactly | src/libs/Unpackager.cpp:50-92 | any run of packets overruns the 1500000 bytes if and only if the bytes between two of its markers, or since the start or the last marker, exceed them; otherwise it ends as with an unbounded buffer |
| Pipeline.RunFits | src/libs/Unpackager.h:21 | without loss the buffer suffices if and only if every frame has at most 1500000 bytes |
| Pipeline.MediaClock | src/libs/Unpackager.cpp:78 | the time between two frames is recovered if and only if the 32-bit clock had wrapped equally often at both |
| Pipeline.CutTowardsZero | src/libs/Unpackager.cpp:78 | a time that is no whole millisecond is cut towards zero, also when it is negative |
| Pipeline.RoundTrip | src/libs/Packager.cpp:46-101 | for every sequence of non-empty frames the receiver, if and only if every frame has at most 1500000 bytes, does not overrun its buffer and emits the same frames in order, each with its exact relative time if and only if the clock did not wrap between |
| Pipeline.ExactRoundTrip | src/libs/Unpackager.cpp:32-92 | for all dts > 0 with 90 dts < 2^32 the output is the input, frame i stamped dts_i - dts_0, if and only if every frame has at most 1500000 bytes; else the buffer is overrun |
| Pipeline.ClockRoundTrip | src/libs/Packager.cpp:68-78 | for frames without dts, sent while 90 times the clock is below 2^32, the output is the input, frame i stamped clock_i - clock_0, if and only if every frame has at most 1500000 bytes; else the buffer is overrun |
| Pipeline.RunNumbers | src/libs/Packager.cpp:70-84 | over a whole run packet k carries number k mod 65536 across frames and is 13 to 1111 bytes long |
| Pipeline.BytesConserved | src/libs/Unpackager.cpp:50-92 | whatever arrives, emitted frames followed by pending bytes are the payloads received, and there are as many frames as markers, if and only if no stretch between markers exceeds 1500000 bytes; else the buffer is overrun |
| Pipeline.Recovery | src/libs/Unpackager.cpp:58-92 | under any loss that leaves no more than 1500000 bytes between two received markers, if the marker before frame j and all packets of frame j arrive, frame j is emitted byte for byte, with its time relative to the first frame of which the marked packet arrived; under other losses the buffer is overrun |
| Pipeline.StampedFrom | src/libs/Unpackager.cpp:58-78 | under any loss the receiver's first time is that of the first frame of which the marked packet arrives, whatever else arrived before |
| Pipeline.DeliveredIsPrefix | src/libs/Unpackager.cpp:58-92 | at any moment of a run without loss the emitted frames are a prefix of those sent, if the buffer suffices so far, which it does if every frame has at most 1500000 bytes |
| Losses.LossFitsExactly | src/libs/Unpackager.cpp:53-56 | the buffer stands every loss with at most n markers lost in a row if and only if, by the sizes of the frames, each fits behind what up to n frames before it leave there without their last packets |
| Losses.AnyLossFitsExactly | src/libs/Unpackager.cpp:53-56 | it stands every loss if and only if this holds for all n |
| Losses.SentFits | src/libs/Sender.cpp:30-37 | whatever the sender drops under any interleaving, the receiver's buffer is not overrun if the frames meet that bound for the markers dropped in a row, or for every n |
| Sender.QueueKeepsOrder | src/libs/Sender.cpp:28-53 | under every interleaving sent followed by queued is what was accepted, in order; at most 1000 are queued; the sending thread never sleeps on a non-empty queue without a wake-up pending |
| Sender.StepRefinesChannel | src/libs/Sender.cpp:28-53 | every step is a put, take, close or nothing to a bounded channel without threads, and the wire holds the first packets of its stream |
| Sender.AcceptedIsSubsequence | src/libs/Sender.cpp:30-37 | accepted is exactly the subsequence of packets offered while active with fewer than 1000 queued |
| Sender.WireBytesConserved | src/libs/Sender.cpp:28-53 | through drops, what is sent is a prefix of the accepted packets, and a receiver keeps all its bytes in order, if and only if no stretch between two markers sent exceeds the receiver's 1500000 bytes |
| Sender.DeliveredSoFar | src/libs/Sender.cpp:28-53 | with no drop, the frames delivered end to end at any moment are a prefix of the frames sent, if every frame has at most 1500000 bytes; otherwise exactly as long as the stretches fit |
| Sender.RecoveredEndToEnd | src/libs/Sender.cpp:28-53 | after any drops that leave no more than 1500000 bytes between two markers sent (`Losses.SentFits` bounds them before the run), a frame whose packets were all accepted, as was the packet before its first, comes out of the receiver byte for byte once they have been sent, right after the frames made up earlier, with its time relative to the first frame of which the marked packet was accepted |
| Sender.ExitedMeansStopped | src/libs/Sender.cpp:41-53 | over every run the sending thread only ends after `sending_` was cleared |
| Sender.NextPacketGoesOut | src/libs/Sender.cpp:41-53 | in every reachable state with the sender active and packets queued, the thread's own steps, without spurious wake-ups, put the front packet on the wire and lead back to its test |
| Sender.QueueGoesOut | src/libs/Sender.cpp:41-53 | from every such state such steps put the whole queue on the wire, in order |
| Sender.AtMostOneAfterStop | src/libs/Sender.cpp:13-16 | after `sending_` is cleared nothing is accepted and at most one more packet is sent, none unless the thread had passed its test |
| Sender.StrandedForever | src/libs/Sender.cpp:42-49 | a thread that sleeps unnotified after the stop sleeps until a spurious wake-up |
| Sender.JoinEndsExactly | src/libs/Sender.cpp:13-16 | the destructor's join can end without a spurious wake-up if and only if the thread is not stranded |
| Sender.Sender.ReceiveRtpPacket | src/libs/Sender.cpp:28-39 | the packet is queued exactly if active and fewer than 1000 are queued; a sleeping thread is notified even when it is dropped |
| Sender.Sender.SendLoop | src/libs/Sender.cpp:41-53 | with any actions of other threads at the moments the mutex is free, the loop performs a run of the transition system with exactly those actions; it ends only after `sending_` was cleared, and otherwise is left waiting or about to lock; others act only while it waits unnotified and once after each test |
| Streamer.Streamer.InitTransport | src/libs/Streamer.cpp:41-76 | over UDP the least even P >= 6970 with P and P+1 free is taken, exactly its two sockets stay open, the 16-bit counter does not wrap; with none free nothing stays open and the ports are unchanged |
| Streamer.Streamer.TryPair | src/libs/Streamer.cpp:55-73 | both sockets are bound exactly if both ports are free; otherwise all opened ones are closed again |
| Streamer.FewTakenLeaveAPair | src/libs/Streamer.cpp:53 | fewer than 29282 ports taken leave some pair free |
| Streamer.TwoStreams | src/libs/Streamer.cpp:53-74 | two streams set up one after the other get four different ports |
| Rtsp.Scan | src/libs/TcpConnection.cpp:366-375 | the first position holding a delimiter, or the limit |
| Rtsp.Find | src/libs/TcpConnection.cpp:337-345 | the first occurrence, or -1 if and only if there is none |
| Rtsp.FindScheme | src/libs/TcpConnection.cpp:397-404 | the first "rtsp:/" that ends early enough |
| Rtsp.BackOverSpaces | src/libs/TcpConnection.cpp:431 | the last non-blank position of the path |
| Rtsp.BackToSlash | src/libs/TcpConnection.cpp:433 | the last slash of the path |
| Rtsp.TcpConnection.ReadPorts | src/libs/TcpConnection.cpp:337-361 | sets the two client ports from the first client_port line and cuts that line |
| Rtsp.TcpConnection.ReadName | src/libs/TcpConnection.cpp:363-377 | the method name is what precedes the first blank within 199 characters |
| Rtsp.TcpConnection.ReadCommand | src/libs/TcpConnection.cpp:379-392 | the type is the first known name contained; an unknown one keeps the previous type; only SETUP sets the transport |
| Rtsp.TcpConnection.ReadHost | src/libs/TcpConnection.cpp:394-421 | the host part overwrites the start of its buffer, without terminator, and the path starts after it |
| Rtsp.TcpConnection.ReadPath | src/libs/TcpConnection.cpp:423-450 | both parts of the path, or refusal if one does not fit or there is no path |
| Rtsp.TcpConnection.ReadCSeq | src/libs/TcpConnection.cpp:452-477 | the sequence number up to the line end, refused if missing or longer than 198 characters |
| Rtsp.TcpConnection.ParseRtspRequest | src/libs/TcpConnection.cpp:322-498 | result and every session field are those of the specification function, including what a refused request leaves behind |
| Rtsp.TcpConnection.HandleRtspRequest | src/libs/TcpConnection.cpp:67-80 | a handler is called exactly for accepted requests of five types; the type is returned even after a refusal |
| RtspRequests.ReadsCore | src/libs/TcpConnection.cpp:363-477 | any buffer that holds a printed request, followed by anything, has the effect that the request means, accepted or refused |
| RtspRequests.ParsedExactly | src/libs/TcpConnection.cpp:322-498 | parsing a printed request, with an rtsp URL, with "rtsp:/" or with no URL, in any case and with any blanks, gives exactly what it means: a name that does not fit ends it after the ports, and the host, both path parts and the number are taken over until one does not fit |
| RtspRequests.AcceptedExactly | src/libs/TcpConnection.cpp:322-498 | a printed request is accepted if and only if name, path parts and number fit their buffers |
| RtspRequests.NothingIsOptional | src/libs/TcpConnection.cpp:363-477 | whatever the buffer holds, nothing is accepted without a blank within 199 characters, "RTSP/", "CSeq:" and a line end |
| RtspRequests.PortsReadBack | src/libs/TcpConnection.cpp:337-361 | the client's first port is read back and the second is taken to be the next, modulo 65536 |
| RtspRequests.PortInExactly | src/libs/TcpConnection.cpp:346-356 | in any line the port is the number between the first '=' and the next '-'; without either none is read |
| RtspRequests.NoPortLine | src/libs/TcpConnection.cpp:337-343 | without client_port, or without a line end behind it, no port is read and the buffer stays as it is |
| RtspRequests.AtoiReads | src/libs/TcpConnection.cpp:354 | the number is read behind white space and a sign, up to the first character that is no digit |
| RtspRequests.ParseInvertsPrint | src/libs/TcpConnection.cpp:322-498 | parsing inverts printing for every well-formed request, whatever follows it in memory; one that is no URL leaves the host as it was |
| RtspRequests.SetupReadBack | src/libs/TcpConnection.cpp:331-498 | the same with a Transport header after the sequence number: also the port, and TCP exactly if named before the end of that header |
| RtspRequests.TransportFirstReadBack | src/libs/TcpConnection.cpp:331-498 | the same with the Transport header before the sequence number, which is found although the line before it was cut |
| RtspRequests.OptionsIsRead | src/libs/TcpConnection.cpp:394-450 | `OPTIONS * RTSP/1.0` with sequence number 1, in a cleared buffer, is accepted as OPTIONS with suffix `*` and that number, and leaves the host as it was |
| RtspRequests.PlayIsRead | src/libs/TcpConnection.cpp:322-498 | a PLAY request with host, two path parts and number, in a cleared buffer, meets all these conditions and is read back |
| RtspRequests.NamesRead | src/libs/TcpConnection.cpp:379-385 | each of the six method names is recognised |
| RtspRequests.TypeExactly | src/libs/TcpConnection.cpp:379-385 | for any name, the type is the first of the six, in the order of the code, whose name is contained in it; if none is, the type of the request before stays |
| RtspRequests.HostReadBackExactly | src/libs/TcpConnection.cpp:409-415 | after a run of parsed requests on a connection, accepted or not, the host buffer reads as the last host part if and only if no earlier one was longer |
| RtspRequests.NoPathIsRefused | src/libs/TcpConnection.cpp:423-450 | a request whose URL ends with the host part, or with nothing before the protocol, is refused, with the command type already set |

## Left out

- Condition variables of single waits (line 445 and the broadcast of line 501), and `Destroy` of a condition variable: a single sleeper may wake at any time. Freedom from use after deletion is proved for accesses under the waiter's mutex; for the signals of lines 428 and 494 it does not hold, see `PeventsLateSignals`.
- Liveness and time: no claim that a sleeper is scheduled, and deadlines are only "may expire at any moment". The conversion of clock times to `timespec` is not part of this model.
- `PulseEvent`, which is not compiled.
- Thread identities: a call is its own process; a thread that runs several calls in a row is not distinguished from several threads.
- PeventsCalls.EventLib.WaitForMultipleEvents: the exact outcome is stated for a call that meets no contention up to its first sleep; `PeventsThreads.WaitForMultipleEvents` has the other calls.
- PeventsCalls.EventLib.StartWait: its scan likewise meets no contention; `PeventsThreads.ScanAll` is the scan under interference.
- PeventsCalls.EventLib.SetEvent: likewise; `PeventsThreads.SetEvent` has the other calls.
- PeventsCalls.EventLib.SetAutoEvent: likewise; `PeventsThreads.ServeAuto` is the loop under interference.
- PeventsCalls.EventLib.SetManualEvent: likewise; `PeventsThreads.ServeAll` is the loop under interference.
- PeventsCalls.EventLib.RemoveExpiredWaits: nobody interferes between two entries; `PeventsThreads.SweepAndPoll` and `PeventsThreads.CleanUp` are the clean-ups under interference.
- PeventsCalls.EventLib.WaitForEvent: stated without contention, up to its first sleep; `PeventsThreads.WaitForEvent` has the other calls.
- PeventsCalls.EventLib.DestroyEvent: stated without contention; `PeventsThreads.DestroyEvent` and `PeventsDestroy.LeaksExactly` have the other calls.
- PeventsThreads.SetEvent: the order of the hand-overs of one manual-reset call is stated for uncontended calls and, step by step, by `PeventsFifo.FifoStep`.
- RtpHeaders.HeaderLength: the extension length is read at its fixed offset, as the code does, so that a packet with both contributing sources and an extension is mostly cut in the wrong place; `RtpHeaders.HeaderLengthExactly` says when it is not.
- RtpHeaders.RtcpHeader.SetREMBBitRate: no claim for rates from 2^64 - 2^46 on, where the loop ends with exponent 64 and the shift is undefined; decoding is only claimed where the 32-bit shift is defined.
- Packager.Packager.ReceivePacket: `av_rescale(x, 90000, 1000)` is 90 x narrowed to 32 bits, and the overflow of the `int` sequence counter after 2^31 packets is not modelled; audio packets, for which the code does nothing, are not modelled.
- Unpackager.Unpackager.ReceiveRtpPacket: requires that the packet fits the buffer, which the code does not check; `Pipeline.ReceivedExactly` says for which runs it does. The frame handed over is copied, so a sink that keeps the pointer into the reused buffer is not modelled.
- Receiver.Receiver.Init: a datagram received with an error is treated like any other, as in the code; the socket is a sequence of datagrams, and a receiver without a sink, which would stop at the first one, is not modelled.
- PeventsDestroy.LeaksExactly: stated for states in which no mutex is held; in others a leak still needs a waiter that is registered elsewhere, too (`PeventsDestroy.AloneLeavesNothing`), but whether the other call can get on depends on who holds what.
- Sender.Sender.ReceiveRtpPacket: the unlocked reads and the write of `sending_` are taken as atomic; the unused rest of a queue entry is not modelled.
- Sender.Sender.SendLoop: the loop is followed for as long as other threads' actions are given; a failing `sendto` is not modelled.
- Rtsp.TcpConnection.ParseRtspRequest: the optional Content-Length loop is left out, since nothing reads its result; `atoi` has no bound.
- Rtsp.TcpConnection.HandleRtspRequest: the response texts, SDP and date are fixed strings and plumbing.
- RtspRequests.ParsedExactly: a request whose fields hold their own delimiters is parsed as another one, or is not covered: a path with "RTSP/" in it, headers with an earlier "CSeq:", and a request that is no URL but holds a scheme further on.
- `RedHeader`, the plain getters and setters of `RtcpHeader`, and the VP8 branch of `writeFragment`, which is compiled out: they would only add easy members.
- FFmpeg, OpenCV and device code, sockets and Boost.Asio beyond a set of busy ports and an in-order lossy channel, the accept loop of the server.
