# Verification of the AgOpenGPS task controller

AOG-TaskController sits between AgOpenGPS and ISOBUS implements. AgOpenGPS demands sections in UDP
packets; the task controller turns a demand into setpoints for each implement, sends only what changed,
takes in the implement's reports, and tells AgOpenGPS ten times a second which sections really run. This
project models that path, and the asynchronous log that keeps it on time, in Dafny 4.11, and proves what
the pieces promise together. `dafny verify dfyconfig.toml` checks all of it.

## How the project is laid out

| file | about |
|---|---|
| `Bits.dfy` | shifts, masks, bitwise or and the signed reinterpretation, written out on integers |
| `DeviceDescriptor.dfy`, `MeasurementIndex.dfy`, `ElementHierarchy.dfy` | the object pool, the DDI index built from it, the cached element hierarchy |
| `SectionControl.dfy`, `ServerModel.dfy` | one client and the whole server as values, with every entry point as a step |
| `TaskController.dfy`, `TaskControllerServer.dfy`, `Application.dfy` | the mutable objects, each method proved to make exactly that step |
| `SectionRuns.dfy`, `SetpointDelivery.dfy`, `PerElementDelivery.dfy`, `MasterWorkState.dfy`, `ControlMessages.dfy`, `Heartbeat.dfy`, `ClosedLoop.dfy`, `Lifecycle.dfy` | what holds over whole runs |
| `AsyncLog.dfy` | the log queue, its writer and its producers, in every interleaving |
| `UdpFraming.dfy`, `SectionDemandText.dfy`, `HardwareMessage.dfy`, `DemandMonitor.dfy` | frames, printed section ranges, text cut at character boundaries, the working-without-demand warning |

The classes keep the program's fields. `ClientState.View()` and `MyTcServer.Model()` give their abstract
values, and each method's contract equates the new value with a function of the old one. The theorems are
about those functions and about arbitrary sequences of events, so they cover every order in which the two
threads can take `clientsMutex`. What a message carries and where it goes is stated in numbers and positions
(DDIs, digits, bits, indices, milliseconds) and not in terms of those functions. `sent`, in a client, is not a
field of the program: it records what the bus has carried to that client since it was created.
`ClientsAreIndependent` and `ClientHasHistory` carry every statement about one client's run over to runs of the
server with any number of clients.

The calls into the ISOBUS library are the functions of `Library` (deserializing a chunk, reading the
geometry), arbitrary but fixed. A control function is identified by its NAME. Time and packets are inputs.

## What turned out not to hold as hoped

* **A demand before the subscription pass is lost.** The main loop makes that pass after each received
  datagram, so the gap is one datagram wide: when the implement reports automatic mode right after its activation,
  the next demand changes the stored setpoints although no DDI can be addressed yet. Repeating it later sends
  nothing (`DemandBeforeSubscriptionIsLost`). In every later state the implement's picture of a block is right
  if and only if its setpoints were all off at the pass or an automatic demand has changed the block since
  (`MirrorExactIff`); it is right throughout if and only if they were all off (`MirrorExactIffOffAtSubscription`).
  The master work state meets the same condition (`WorkExactIff`, `WorkExactIffOffAtSubscription`). Control by
  element does not suffer from this.
* **Control by element stops at a read-only condensed actual state.** Where an element also lists the condensed
  actual state (DDI 161 and up) of a block, which in such pools cannot be set, nothing is sent for that block
  from the subscription pass on: a demand changes the setpoint and no message goes out
  (`ListedBlocksAreSilent`; `DemandReachesNothing` is a run in which it happens). Elements mirror the setpoints
  throughout if and only if no element lists that object (`ElementsAreMirroredIff`).
* **Payloads of 250 bytes.** docs/PROTOCOL.md allows 250 bytes, but the 8-bit index of the receive loop
  then wraps to 0 and the loop never ends (`FullFrameNeverEnds`). `DeliveredOnceIff` says for every frame
  that can be built whether it is delivered. `calculate_crc` counts in 8 bits too and ends on up to 255
  bytes and no more (`CrcEndsIff`), so frames carry at most 252.
* **Two frames in one datagram.** The index is not set back when the rest is moved to the front, so the second
  frame is found only where the move left its old copy alone: if the first is at least as long
  (`TwoFramesInOneDatagram`).
* **Repeated element numbers** can make the cached hierarchy disagree with the pool
  (`DuplicateNumbersDisagree`). The two agree for every question if and only if each element's parent is met on
  the cached walk from the element's number (`CachedWalkAgreesIff`), which distinct numbers ensure
  (`DistinctNumbersAgree`).

## Model

| member | source | states |
|---|---|---|
| Bits.CondensedRoundTrip | src/task_controller.cpp:681-688 | sixteen two-bit states survive packing into an unsigned 32-bit value, its reinterpretation as a signed one and unpacking by arithmetic shifts |
| Bits.FieldIsDigit | src/task_controller.cpp:685-686 | field i of a report is its digit i to base four, also of a negative number |
| Bits.BitIsDigit | src/app.cpp:496-503 | bit i of a byte is its binary digit i |
| DeviceDescriptor.SettableIff | src/task_controller.cpp:1048-1065 | a DDI can be set exactly if the first process data object with it says so |
| ElementHierarchy.AnyInChain | include/element_hierarchy.hpp:54-71 | the walk bounded by the map's size answers true if and only if some element reachable by following parents any number of times satisfies the predicate, also when parents form a cycle |
| ElementHierarchy.CycleCoversEverything | include/element_hierarchy.hpp:51-57 | a chain of more elements than the map has entries repeats one of them, which is why the bound suffices |
| ElementHierarchy.ParentIsFirstWithId | include/element_hierarchy.hpp:35-41 | the parent of a device element is the first object of the pool with the parent's id, if that is a device element |
| ElementHierarchy.CachedParents | include/element_hierarchy.hpp:15-48 | for every pool the cached map gives each number the parent of the last device element that has this number and another element as its parent; with distinct numbers that is the parent relation of the pool, self-references apart |
| ElementHierarchy.CachedWalkAgreesIff | src/task_controller.cpp:300-313 | the cached walk answers every question about every element as a search along parent object ids in the pool would, if and only if each element's parent is met on the cached walk from its number |
| ElementHierarchy.DistinctNumbersAgree | include/element_hierarchy.hpp:42-45 | distinct element numbers meet that condition |
| ElementHierarchy.DuplicateNumbersDisagree | include/element_hierarchy.hpp:42-45 | a pool with a repeated element number on which the two differ |
| MeasurementIndex.LinksCount | src/task_controller.cpp:749-792 | for every pool, the subscription pass visits a process data object once for each mention of it in a device element's child list and each of its copies in the pool |
| MeasurementIndex.SubscriptionsSent | src/task_controller.cpp:749-831 | how often a DDI is subscribed at an element: for 141, 161-176, 367-382, 160, 289 and 290-305 the mentions in that element's child lists, summed over the objects that ask for it; time intervals for the first three groups only |
| MeasurementIndex.IndexHolds | src/task_controller.cpp:749-871 | after the first pass a DDI can be addressed if and only if it is one of 141, 161-176, 367-382, 160, 289, 290-305 and some element lists an object with it, or it is 514 and some element lists a settable object with it |
| MeasurementIndex.OneCommandPerOccurrence | src/task_controller.cpp:778-787 | each visit sends each of the object's subscriptions once, time intervals in the first pass only, and nothing else |
| MeasurementIndex.IndexedToLastListing | src/task_controller.cpp:749-835 | such a DDI is addressed to the last element that lists the last listed object with it, by position in the pool |
| MeasurementIndex.GnssIsFirstOwnerOfLast | src/task_controller.cpp:844-871 | GNSS quality goes to the first owner of the last settable object that has one, and nowhere without one |
| TaskController.RequestMeasurementCommandsOf | src/task_controller.cpp:740-877 | the nested loops build that index, send those commands and set the flag; they do nothing for a client without sections or the second time |
| TaskController.ClientState.GetSectionActualState | src/task_controller.cpp:178-200 | the state shown for a section, masked by the element hierarchy unless the client is controlled by element |
| TaskController.CondensedValue | src/task_controller.cpp:961-966 | the or-ed value of a block has the sixteen states as its digits to base four, 3 past the last section, and fits 32 bits |
| TaskController.SendSectionSetpointStates | src/task_controller.cpp:958-1040 | which of the four branches a block takes and exactly what it sends and stores |
| TaskController.SweepSections | src/task_controller.cpp:897-921 | the loop over single sections, which sends a block when the next one begins, has the effect of bringing whole blocks in line one after the other and sending each that changed |
| TaskController.StoreCondensedReport | src/task_controller.cpp:664-690 | a condensed report stores one field and the reporting element for each section of its block, and nothing past the last section |
| ServerModel.SectionsAreInOrder | src/task_controller.cpp:459-476 | sections of a geometry split between booms, or of a boom split between sub-booms, are those of the first part and then those of the second; a boom's own sections follow its sub-booms |
| TaskControllerServer.FlattenGeometry | src/task_controller.cpp:459-476 | the nested loops give that list, and a count of it that wraps at 8 bits |
| TaskControllerServer.DetectPerElementControl | src/task_controller.cpp:506-565 | control by element is chosen exactly when the pool has no condensed setpoint (290-305), no settable condensed actual state (161-176) and a settable actual work state (141) |
| TaskControllerServer.MyTcServer.ActivateObjectPool | src/task_controller.cpp:343-580 | the new client and the error codes of an activation, for any library |
| TaskControllerServer.MyTcServer.OnValueCommand | src/task_controller.cpp:655-720 | what a report changes; an unknown partner gets a client without sections |
| TaskControllerServer.MyTcServer.UpdateSectionStates | src/task_controller.cpp:879-923 | a demand reaches every client, each according to its own state, whatever the order of the loop |
| SectionRuns.ClientsAreIndependent | include/task_controller.hpp:135-152 | in every interleaved run of the server that does not remove or replace it, a client's part is the run of its own reports and the common requests; refused activations do not replace it |
| SetpointDelivery.LastValueDecodesToSetpoints | src/task_controller.cpp:879-923 | over any run from an activation, the last value sent for a block has as its digits the stored setpoint of each section, and 3 past the last section; read back as a report it gives the same |
| SetpointDelivery.MirrorExactIff | src/task_controller.cpp:970-1000 | in each state of each run from the subscription pass on, the implement's picture of a block that can be sent is right if and only if the block's setpoints were all off at that pass or an automatic demand has changed the block since |
| SetpointDelivery.MirrorExactIffOffAtSubscription | src/task_controller.cpp:970-1000 | so it is right in all of them if and only if the setpoints were all off at that pass |
| SetpointDelivery.DemandBeforeSubscriptionIsLost | src/app.cpp:632-635 | a run of the two threads (mode report, demand packet, subscription pass) after which a section is wanted on, is deliverable, and was never sent |
| SetpointDelivery.UpdateSendsExactlyChangedBlocks | src/task_controller.cpp:897-921 | one update sends the blocks in which the demand disagrees with a setpoint, in ascending order and once each, under 290 and up or else 161 and up where that can be set, to the element in the index, with the new states and 3 past the last section, and no other; setpoints become 1 or 0 where there is a demand and keep their value elsewhere |
| PerElementDelivery.ElementsAreMirroredIff | src/task_controller.cpp:1001-1018 | in every state of every run without reports that remap the section, its own element was last told the stored setpoint, or nothing and the setpoint is off, if and only if no element of the pool lists the condensed actual state of its block |
| PerElementDelivery.ElementHearsDemandIff | src/task_controller.cpp:989-1001 | a changed section's element is told the new setpoint if and only if no condensed DDI of its block is addressable |
| PerElementDelivery.ListedBlocksAreSilent | src/task_controller.cpp:989-1000 | in any state after the subscription pass, a demand that only disagrees with listed blocks changes the setpoints and sends nothing at all |
| PerElementDelivery.DemandReachesNothing | src/task_controller.cpp:989-1000 | a pool and a run in which that happens |
| MasterWorkState.WorkStateAlternates | src/task_controller.cpp:977-982 | over any run from an activation the DDI 289 values sent strictly alternate, starting with 1, and the stored state is the last of them |
| MasterWorkState.WorkExactIff | src/task_controller.cpp:202-212 | for an implement with DDI 289 that takes each block as a condensed setpoint or by element: in each state from the subscription pass on, the stored state is "some setpoint is on" if and only if none was on at that pass or an automatic demand has changed one since |
| MasterWorkState.WorkExactIffOffAtSubscription | src/task_controller.cpp:202-212 | so it is after every step of every run if and only if no setpoint was on at that pass |
| MasterWorkState.WorkStateIsSent | src/task_controller.cpp:970-982 | such an implement, and a run in which the first demand sends the master work state 1 |
| MasterWorkState.WorkStateIsNotSent | src/task_controller.cpp:986-1000 | an implement that lists no condensed setpoint and is not controlled by element is never told the master work state |
| ControlMessages.ControlStateIsSent | src/task_controller.cpp:925-943 | over any run from an activation, a client with sections whose pool lists DDI 160 is sent one message under it for each control request after the first measurement pass, to the element in the index, 1 for automatic and 0 for manual; others are sent none |
| ControlMessages.LastControlState | src/task_controller.cpp:1042-1046 | the last control state sent is the mode last asked for |
| ControlMessages.ModeIsLast | src/task_controller.cpp:691-694 | the automatic flag is the mode asked for or reported last, off before the first |
| ControlMessages.QualityIsSent | src/task_controller.cpp:945-956 | each GNSS quality given after the first measurement pass is sent once, to the element in the index |
| ControlMessages.SubscribesOnce | src/task_controller.cpp:740-747 | subscriptions are sent, and the index is built, in the first measurement pass of a client with sections and never otherwise |
| ControlMessages.EverythingIsAddressed | src/task_controller.cpp:970-1040 | over any run every value goes to the element that the index has for its DDI; only DDI 141 goes to sections' own elements, never to element 0, and only with control by element |
| Heartbeat.UnpackDemand | src/app.cpp:493-503 | section 8j+i of a demand is bit i of byte j |
| Heartbeat.HeartbeatPayload | src/app.cpp:741-757 | mode, section count, and one bit per section that is set exactly if the section is shown as on; spare bits are 0 |
| Heartbeat.ShownOnIffReportedOn | src/task_controller.cpp:681-701 | after any history a section is shown with the state of the last report covering it, or as off without one or if an element from the reporting one upwards last reported anything but working |
| Heartbeat.ShownOnInTermsOfPool | src/task_controller.cpp:191-197 | the same with the chain of parent object ids in the pool, for every pool on which the cached walk agrees with it |
| Heartbeat.ShownOnIffLastWordIsOn | src/task_controller.cpp:664-715 | with control by element, after any history a section is shown as on exactly if the last word about it says so: a condensed report of its block, or a work state of the element that stood for it then |
| PerElementDelivery.SectionElementIsLastReporter | src/task_controller.cpp:683-688 | over any run a section has the element that reported its block last, and the one of the geometry before the first report |
| ClosedLoop.PacketMeans | src/app.cpp:488-518 | what each packet asks for, bit by bit |
| ClosedLoop.EchoFollowsSweep | src/task_controller.cpp:897-921 | echoing the blocks that an update sent takes a picture of the old setpoints to one of the new ones |
| ClosedLoop.HeartbeatIsLastAutomaticDemand | src/app.cpp:728-759 | over any run of packets, delayed echoes, mode and work reports: once everything sent has been echoed and no echoing element or ancestor is off, the heartbeat bits are the last demand packet received in automatic mode |
| ClosedLoop.LoopTracksPackets | src/app.cpp:493-518 | mode and demand of the loop are determined by the packets and mode reports alone |
| Lifecycle.OnlyActiveClientsAreSent | src/task_controller.cpp:879-943 | a step sends something to a client only on a request of the main thread and if the client was activated and not removed since; setpoints only for a demand in automatic mode, the control state only for a control request, subscriptions only in the first measurement pass |
| Lifecycle.OnlyActiveClientsAreInUse | src/task_controller.cpp:587-637 | in every reachable state active clients are known, and clients that only reports created have no sections, no mapping and were sent nothing |
| Lifecycle.SubscribedForGood | src/task_controller.cpp:746-746 | after the first measurement pass the index stays as it is until the client is removed |
| Lifecycle.FailedActivationKeepsClients | src/task_controller.cpp:343-383 | when an activation is accepted, that a refused one leaves all clients as they were, and that either uses up the upload |
| Lifecycle.SecondActivationNeedsNewUpload | src/task_controller.cpp:374-381 | after an activation, whatever happens, a further one is refused as long as nothing was stored for the client |
| Lifecycle.ActivationOutcome | src/task_controller.cpp:343-580 | the answer to an activation after any run, with its error codes, and the new client, from the chunks stored since the upload was last used up or removed |
| Lifecycle.KnownIff | src/task_controller.cpp:655-720 | which clients the server knows after any run |
| Lifecycle.ClientHasHistory | src/task_controller.cpp:343-943 | every client of every reachable state is what its own reports and the common requests have made of an activated client, or of an empty one if it was not activated since its last removal |
| AsyncLog.Queue.SubmitLine | src/async_log.cpp:73-88 | a submit drops the oldest lines, as few as bring the queue under its cap, never the new one, and accounts for their bytes |
| AsyncLog.LineBuffer.Append | src/async_log.cpp:121-130 | everything up to the last newline is handed over as one chunk, the rest stays |
| AsyncLog.StreamReconstruction | src/async_log.cpp:30-60 | over every interleaving, the output with each notice replaced by the lines it stands for, then the lines to be announced, the batch, the unreported drops and the queue, is every chunk in submission order; each notice's number is the size of its lines |
| AsyncLog.FlushedMeansToldAll | src/async_log.cpp:145-162 | when flush succeeds every chunk submitted so far is printed or covered by a printed notice |
| AsyncLog.QueueAccounting | src/async_log.cpp:73-88 | in every reachable state the byte counter is the size of the queue, which is within the cap or holds one line |
| AsyncLog.SubmitKeepsNewest | src/async_log.cpp:73-88 | a submit appends the line and drops oldest lines, each only because the text from it on is longer than 8 MiB, until the rest fits or only the new line is left; the counters follow |
| AsyncLog.BelowCapNothingIsLost | src/async_log.cpp:15-17 | as long as all chunks together fit under the cap nothing is ever dropped |
| AsyncLog.WriterMakesProgress | src/async_log.cpp:33-59 | unless drained exactly one writer action is possible and it brings the drained state one step nearer |
| AsyncLog.ThreadTextIsWhole | src/async_log.cpp:92-130 | for any split into appends and any interleaving, a thread's chunks followed by its pending text are what it appended; while it lives its chunks end lines and its pending text has no newline |
| AsyncLog.SplitDoesNotMatter | src/async_log.cpp:104-130 | what a living thread has submitted and holds back depends on its text only, not on how it was split |
| UdpFraming.CrcIsSum | src/udp_connections.cpp:146-154 | the checksum is the sum of the bytes modulo 256 |
| UdpFraming.CrcEndsIff | src/udp_connections.cpp:146-154 | the checksum loop with its 8-bit counter ends if and only if there are at most 255 bytes |
| UdpFraming.BuildFrame | src/udp_connections.cpp:313-326 | the buffer filled by index is 0x80, 0x81, source, PGN, length, payload and the checksum of all after the marker |
| UdpFraming.UdpReceiver.HandleIncoming | src/udp_connections.cpp:156-223 | the receive loop with its 8-bit index and moving buffer is the iteration of one parse-and-move step |
| UdpFraming.DeliveredOnceIff | src/udp_connections.cpp:170-217 | exactly which frames are delivered once with the loop ending and nothing held back |
| UdpFraming.FullFrameNeverEnds | src/udp_connections.cpp:198-216 | with a payload of 250 bytes every iteration leaves the loop where it was and calls the handler again |
| UdpFraming.EveryFrameDelivered | src/udp_connections.cpp:156-223 | over any series of datagrams with one frame of 2 to 249 payload bytes each, the handler is called once per frame, in order and with its contents, every loop ends and the buffer is empty in between |
| UdpFraming.SplitFrameDelivered | src/udp_connections.cpp:170-217 | a frame in two datagrams, the first with less than eight bytes of it, is delivered once |
| UdpFraming.TwoFramesInOneDatagram | src/udp_connections.cpp:170-217 | of two frames in one datagram both are delivered if the first is at least as long as the second; if it is shorter, and the second holds no marker byte where the index points, the second is lost |
| SectionDemandText.PrintedTextIsExact | src/app.cpp:950-980 | the printed text is "all off" or a number, " on: " and ranges; it reads back as the number of sections that are on, among the first `numberOfSections` or all of them, and as maximal, ascending, separate ranges that cover exactly those |
| SectionDemandText.RangesRoundTrip | src/app.cpp:968-972 | reading the printed ranges gives the ranges that were printed |
| HardwareMessage.HardwarePayload | src/app.cpp:840-861 | nothing is sent for an empty or undividable text, else duration, colour and at most 60 bytes |
| HardwareMessage.CutKeepsWholeCharacters | src/app.cpp:844-853 | a text of whole UTF-8 characters is cut to whole characters, only if too long, and no sooner than necessary |
| DemandMonitor.SaysExactly | src/app.cpp:1038-1066 | the monitor warns at the first check of an unbroken working-without-demand stretch that is ten seconds or more (modulo 2^32 ms) after its start, and reports "follow again" exactly at the end of a stretch it warned about |
| DemandMonitor.SaysInTime | src/app.cpp:1053-1066 | in true time, for stretches of less than 2^32 ms: it warns at the first check of an unbroken stretch 10 000 ms or more after its start, and says "follow again" at the first check after a stretch that lasted so long |
| DemandMonitor.NoticesAlternate | src/app.cpp:1038-1066 | over any run of checks warnings and "follow again" alternate, a warning first |
| Application.App.CheckSectionDemand | src/app.cpp:1011-1068 | one round makes that step once for each client present and none for others, and logs when demand starts or stops arriving |
| Application.App.ArrivingIff | src/app.cpp:1013-1013 | demand is arriving if and only if the last one, not at time 0, is less than 2000 ms old |
| Application.App.HandlePacket | src/app.cpp:488-518 | section demands and control packets from AgOpenGPS reach every client; no other packet does |
| Application.App.Heartbeats | src/app.cpp:728-766 | one heartbeat for each client with sections, and the empty one only if there is none and it is enabled |

## Left out

- HeartbeatIsLastAutomaticDemand: speaks of moments when the implement has echoed all it received; while an echo is on its way the heartbeat shows the older state.
- ElementsAreMirroredIff: leaves out runs with condensed reports that move the section to another element or give its element to other sections, and sections whose element is 0, which is never addressed, or shared, which is told each of its sections' setpoints in turn.
- WorkExactIff: speaks of implements all of whose blocks are followed by DDI 289; for one that takes some blocks as settable condensed actual states, which are not followed, no lemma says when the stored state is right.
- HandleIncoming: requires that the loop ends, since a datagram may make it run for ever; the lemmas beside it say for which frames it does. Of datagrams with several frames only pairs have a lemma.
- SubmitLine: requires the byte counter to be exact, which every method keeps and `QueueAccounting` states for all reachable states.
- UpdateSectionStates: the order of messages to different clients is not modelled, only the order of the messages to each.
- The mutex and the condition variables of the log queue: each stretch of code under the lock is one step, printing a notice and printing a line are steps of their own.
- The ISOBUS library: deserializing, geometry, address claims, sending. `get_object_by_id` is taken to return the first object with the id, sends always arrive, and timestamps are compared modulo 2^32.
- Reading the start marker: `rxBuffer[index++] << 8 | rxBuffer[index++]` leaves the order of its operands open; the model reads from left to right.
- Sockets, network interface choice, rebinding and the address detection socket, whose loop repeats the receive loop.
- GNSS quality and speed packets, the Virtual Terminal, settings, crash handling, saving pools to disk, and log wording other than the section ranges.
- Pacing of log lines and transmissions (`log_section_demand`, `warn_if_late`, the 100 ms, 250 ms and 2 s timers): single comparisons of timestamps.
- Overlong encodings and surrogates in UTF-8: a character is a lead byte with the continuation bytes it announces.
