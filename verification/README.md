# A model of the LiveKit client core

This project models, in Dafny 4.11, the parts of the C++ LiveKit client where state, interleaving and
arithmetic carry the correctness: the reassembly of incoming data streams, the room's registry of
participants and tracks, remote procedure calls, connection recovery and the room's lifecycle, the
end-to-end encrypted frame, the signalling URL, and the coalescing of publisher negotiations. Every
statement is about all inputs, all runs or all interleavings of the model.

`dafny verify dfyconfig.toml` checks everything.

| files | what they hold |
|---|---|
| `Wire`, `Machines`, `Ordering` | bytes and unsigned arithmetic with its wrap-around written out; runs of a machine; the iteration order of `std::map<std::string, T>` |
| `Inflate` | the bounded raw-DEFLATE reader over an abstract decoder |
| `DataStreams` | what a receiver must do, as a function of the history of each stream |
| `StreamIndependence`, `StreamHistory`, `StreamLanguage`, `StreamDelivery` | interleaving independence, reassembly, the language of events, and what a stream must lead to |
| `StreamTable` | the room's two maps, 64-bit counters and buffers, refining `DataStreams` |
| `Registry`, `RegistryFold` | the registry on values, and what a batch does to one participant, from the infos alone |
| `RegistryReplay`, `RegistryReturns`, `RegistryInvariant` | events as an exact account, when they replay, and exactly which steps keep the invariant |
| `RegistryAnswers`, `RegistryValues` | what updates, joins and media events must lead to, and the values that events carry |
| `RegistryTable` | the class with maps and loops |
| `Rpc`, `RpcCauses`, `Negotiation` | protocol machines, what every run of them keeps, and how causes and results belong together |
| `Lifecycle`, `LifecycleCalls`, `Telling` | the connection state and its reports, what each call leads to, and the order in which a listener hears it |
| `Recovery`, `RecoveryRoom`, `RecoveryControl` | one recovery, what it makes of the room, and who may start one |
| `Rbsp`, `KeyRing`, `Envelope`, `Iv`, `FrameCryptor`, `FrameWire` | emulation prevention, the ratchet window, the frame and its round trip, nonces, the transformer, and the bytes on the wire |
| `Percent`, `UrlParts`, `UrlText`, `UrlRoundTrip`, `SignalUrl`, `SignalParameters` | percent-encoding, parsing and printing, what a text means and what comes back, `BuildSignalUrl` and its parameters |
| `Utf8` | truncation of RPC error text |

How it is built. Code that changes objects step by step is a class or a method with a loop, proved
against a function on values; the properties are lemmas about those functions. Threads that race are
steps of one machine at the granularity of the mutex sections. Libraries appear as function values with
a `Valid` predicate that states the few facts used: for zlib, that determined output never changes and
that a call makes progress on `Z_OK`; for the AEAD, that what was sealed opens again and the tag is
16 bytes. No bound is put on the length of a run, a stream or a registry.

Where the code does not do what one would hope, the code is kept, a lemma gives the input, and the exact
condition is proved, as an if-and-only-if or as two lemmas, one for each direction:

- a participant or publication that goes and returns in one batch (`LeavingAndReturning`, `Replay`);
- a first join response over attached tracks, and a track without sid (`DirtyJoinAsRun`,
  `EmptySidStaysAttached`, `StepIsExact`);
- a Disconnect between Connect's report of Connecting and its reset of the disconnected flag
  (`LateResetRepeatsDisconnected`, `DisconnectedOncePerConnect`), and a report that overtakes another
  (`OvertakenReport`, `HeardInOrder`);
- an H.264 slice offset that does not fit in 8 bits (`HeaderCanDisagree`, `HeaderAgreement`);
- a nonce counter that wraps (`WrapRepeatsIv`, `CoincidenceInRun`), and an inflate limit of 2^64 - 1 (`Write`);
- a path with a leading slash and a parameter name with a leading question mark (`DoubleSlashIsLost`,
  `QuestionMarkIsLost`, `SignalUrlRoundTrip`);
- an offer that fails at an answer (`LostRequest`, `WhenRequestsAreLost`);
- a recovery that starts after another gave up (`LateStart`, `NoneAfterGivingUp`, `LateGiveUpDisobeys`),
  and a second one beside another (`StopWhileStarting`, `OneRecoveryAtATime`, `EarlyStopDoubles`).

## Model

| member | source | states |
|---|---|---|
| Inflate.InflateRawStream.Write | src/core/detail/data_stream_compression.cpp:107-142 | while no write was refused, a write succeeds if and only if the whole input so far decodes without an early stop and within the limit; what it appends is the next part of the true output; the loop ends; a limit of 2^64 - 1 refuses every write |
| Inflate.InflateRawStream.CallInflate | src/core/detail/data_stream_compression.cpp:113-124 | one call of inflate takes a prefix of the input, hands out the next output bytes and moves forward |
| Inflate.PartRefutesWhole | src/core/detail/data_stream_compression.cpp:122-138 | an error, an early end or too much output in a part of the input refutes the whole, so refusing at once is right |
| Inflate.SplitDoesNotMatter | src/core/detail/data_stream_compression.cpp:107-142 | however the input is cut into writes, empty ones included, all succeed if and only if the whole input is acceptable and no empty write comes after the end of the stream |
| StreamIndependence.InterleavingIndependence | src/core/room.cpp:1473-1850 | for every packet sequence, state and events of each stream id equal those of its own machine run on its own packets |
| StreamIndependence.StepIsLocal | src/core/room.cpp:1473-1850 | one packet changes and reports only the stream it names; a disconnection changes and reports each open one |
| StreamIndependence.CloseOrderIsExact | src/core/room.cpp:813-845 | failing all streams visits each open id exactly once |
| StreamHistory.OpenStreamHistory | src/core/room.cpp:1552-1561 | an open stream is its last chunked header followed by exactly its chunks 0, 1, 2 ..., and all its sizes are within bounds |
| StreamHistory.Reassembly | src/core/room.cpp:1779-1829 | content delivered at a trailer is the decoding of the chunks since the last chunked header in index order, has the declared length and is at most 64 MiB |
| StreamHistory.TrailerDelivers | src/core/room.cpp:1779-1792 | only a stream without handler that ended well is delivered, with its whole content |
| StreamLanguage.EventLanguage | src/core/room.cpp:1657-1836 | every instance whose header found a handler reports Open Chunk(0) Chunk(1) ... then one Closed or Failed and nothing after; the last word is missing exactly while the instance is open and if a later chunked header replaced it; Closed only when the declared length was heard; any other instance reports one delivery or nothing |
| StreamLanguage.OpenedIffHandled | src/core/room.cpp:1497-1551 | an instance is reported beginning with Open exactly when its header, chunked or inline, found a handler |
| StreamLanguage.SaidIsSpoken | src/core/room.cpp:1657-1758 | what a handler has heard of an open stream is Open and its chunks in order, and their bytes are the stream's content |
| StreamDelivery.StreamEnds | src/core/room.cpp:1657-1850 | a chunked header, chunks numbered from 0 within the declared length and 64 MiB that decode, and a trailer: without reason and whole they are reported as exactly Open, each chunk, Closed, or as the whole content to the listener and named bytes also as a file, the trailer's attributes in place of the header's; any other trailer fails the stream for its reason or as incomplete |
| StreamDelivery.StreamEndsInRoom | src/core/room.cpp:1473-1850 | the same in a room with any other streams interleaved and anything before |
| StreamDelivery.TakesIffFits | src/core/room.cpp:1680-1692 | a stream takes a chunk exactly when it has the next number and the stream still fits with it |
| StreamDelivery.BadChunkFails | src/core/room.cpp:1693-1697 | any other chunk ends the stream and fails it as an invalid chunk under its number |
| StreamDelivery.DisconnectionFails | src/core/room.cpp:813-845 | a disconnection ends an open stream and fails it for the reason given |
| StreamDelivery.InlineIsDelivered | src/core/room.cpp:1529-1551 | inline content that decodes within 64 MiB and has the declared length is reported at once, as one chunk between Open and Closed or as a whole |
| StreamTable.DecodeChunk | src/core/room.cpp:1670-1686 | a compressed chunk is decoded if and only if the raw and decoded sizes stay within the cap and the stream is not over; the piece is the new part of the output |
| StreamTable.TakeChunk | src/core/room.cpp:1670-1708 | a chunk is accepted exactly when the history allows it, the counters then say what the new history says, and no unsigned operation wraps |
| StreamTable.DecodeInlineContent | src/core/room.cpp:36-56 | inline content is accepted exactly when it decodes to its end within the cap |
| StreamTable.NeverBoth | src/core/room.h:146-165 | no id is open as both text and bytes |
| StreamTable.IncomingStreams.OnInlineHeader | src/core/room.cpp:1529-1551 | inline content is reported at once as specified, and leaves an open stream of that id alone |
| StreamTable.IncomingStreams.OpenStream | src/core/room.cpp:1645-1654 | a chunked header replaces whatever was open under its id in either map |
| StreamTable.IncomingStreams.OnStreamHeader | src/core/room.cpp:1473-1655 | both header branches do what the specification says of that id |
| StreamTable.IncomingStreams.OnStreamChunk | src/core/room.cpp:1657-1767 | a chunk advances its stream or fails and removes it, as specified |
| StreamTable.IncomingStreams.Finish | src/core/room.cpp:1779-1829 | closed, failed or delivered, decided by the counters as the history decides |
| StreamTable.IncomingStreams.OnStreamTrailer | src/core/room.cpp:1768-1850 | a trailer ends its stream, as specified |
| StreamTable.IncomingStreams.FailRecords | src/core/room.cpp:813-845 | failures are reported for each record with a handler, in key order |
| StreamTable.IncomingStreams.FailIncomingDataStreams | src/core/room.cpp:813-845 | both maps are emptied and each handler hears of its failure once, text streams first |
| StreamTable.IncomingStreams.Handle | src/core/room.cpp:1473-1850 | the handler with maps and counters is one step of the specified receiver, in state and in events |
| RegistryReturns.Replay | src/core/room.cpp:1949-2180 | folding the events of a batch over the old registry gives exactly the new one if and only if, by the infos alone, no participant and no publication goes and is back at the end |
| RegistryReturns.ReplayOfRuns | src/core/room.cpp:1148-1274 | over every run of updates and media events between joins, folding replays the registry at every moment if and only if no batch lets anything go and come back |
| RegistryReturns.BatchRemovals | src/core/room.cpp:1968-2122 | the log of a batch names as gone exactly what some info takes away |
| RegistryReturns.DistinctSidsReturnNothing | src/core/room.cpp:1968-2122 | a batch without repeated sid lets nothing return |
| RegistryReturns.LeavingAndReturning | src/core/room.cpp:1949-2180 | a participant that leaves and is back in the same batch is lost to the listener |
| RegistryFold.FoldIsBatch | src/core/room.cpp:1968-2122 | what a batch leaves under a sid is the fold of the infos over that participant and the local one, reported or silent |
| RegistryReplay.ReplayByLog | src/core/room.cpp:1949-2180 | folding replays a batch if and only if nothing its log takes away is there at the end |
| RegistryReplay.MediaTrackRemovedReplay | src/core/room.cpp:1234-1274 | the event of a removed media track replays its removal |
| RegistryReplay.MuteTrackReplay | src/core/room.cpp:945-974 | a mute change replays: participants, publications and attached tracks stay |
| RegistryReplay.EntryIsExact | src/core/room.cpp:1949-2122 | each entry changes participants, publications and attached tracks as its events say, and only under its own sid |
| RegistryReplay.FoldOrdered | src/core/room.cpp:2140-2180 | the listener order of a batch amounts to adding everything and then removing everything |
| RegistryReplay.StaleEmitsNothing | src/core/participant/participant.cpp:119-125 | an info older than the known one changes nothing and emits nothing |
| RegistryReplay.AttributePatch | src/core/room.cpp:1949-1964 | the patch names exactly the keys that differ and turns the old map into the new one, removed keys reading as "" |
| RegistryAnswers.UpdateAnswers | src/core/participant/participant.cpp:119-125 | after an info about a remote participant it is there unless it left, with the info of the larger version, the new one on a tie, and with exactly its non-empty track sids published |
| RegistryAnswers.UpdateTouchesOne | src/core/room.cpp:1968-2122 | nobody else is touched |
| RegistryAnswers.LocalUpdateAnswers | src/core/room.cpp:1972-2011 | an info about the local participant touches no remote one |
| RegistryAnswers.VersionIsLargest | src/core/participant/participant.cpp:119-125 | over a batch in which a participant stays, the version kept is the largest of the one known and all received, and the info is one of them |
| RegistryAnswers.RejoinAnswers | src/core/room.cpp:876-939 | after a reconnection that names remote participants, exactly those are there whose last info is not a departure, and nothing is attached or waiting |
| RegistryAnswers.FirstJoinAnswers | src/core/room.cpp:876-939 | after a first join those it names are there unless their last info is a departure, the others if they were |
| RegistryAnswers.JoinNamesLocal | src/core/room.cpp:883-890 | the local participant of a join response is kept, unless the same one is known in a newer version |
| RegistryAnswers.MediaAnswers | src/core/room.cpp:1148-1232 | a media track is attached to the first participant that lists it and reported, or waits |
| RegistryAnswers.WaitingIsAttached | src/core/room.cpp:2124-2185 | a waiting track is attached and reported when an info comes that lists it |
| RegistryAnswers.DepartureAnswers | src/core/room.cpp:2014-2046 | a participant that leaves takes its tracks along, and all of it is reported |
| RegistryAnswers.MuteAnswers | src/core/room.cpp:945-974 | a mute change is kept and reported with the new state, only on a change |
| RegistryValues.ValueInLog | src/core/room.cpp:2077-2089 | metadata and permissions are reported with the old value, name and attributes with the new, for exactly what differs |
| RegistryValues.NamesReplay | src/core/room.cpp:2080-2082 | folding the name events of a batch gives the name of every participant that stays |
| RegistryValues.MutesReplay | src/core/room.cpp:2090-2098 | folding the mute events of a batch gives the mute state of every publication that stays |
| RegistryValues.ValuesAreHeard | src/core/room.cpp:2140-2185 | the listener order does not matter to either |
| RegistryInvariant.RegistryInvariant | src/core/room.cpp:876-939 | throughout a run from an empty registry, attached tracks with a sid have a known participant, waiting ones have none and publications are those of the last accepted info up to later mute changes, if and only if each first join accounts for the tracks it finds attached; for every track, the empty sid included, if and only if besides each batch that finds a track without sid leaves someone who lists it |
| RegistryInvariant.StepIsExact | src/core/room.cpp:1901-2132 | exactly which steps keep the invariant, and which keep a track without sid owned |
| RegistryInvariant.SilentUpdateIsExact | src/core/room.cpp:2062-2076 | a silent batch keeps the invariant if and only if every track attached before is erased by a departure or listed after the batch |
| RegistryInvariant.NoTrackWithoutSid | src/core/room.cpp:1148-1232 | while no media track comes without a sid, none is attached or waiting, so there is no exception |
| RegistryInvariant.AttachedOrWaiting | src/core/room.cpp:1148-1274 | no track with a sid is both attached and waiting, and none at all when a track without sid is owned |
| RegistryInvariant.DirtyJoinStrandsTrack | src/core/room.cpp:876-939 | a first join that silently drops the track of an attached publication strands it |
| RegistryInvariant.DirtyJoinAsRun | src/core/room.cpp:876-939 | the same as a run from an empty registry: published, attached, then a first join without the track |
| RegistryInvariant.EmptySidStaysAttached | src/core/room.cpp:1148-1274 | a run from an empty registry after which a track without sid is attached and its participant gone: a departure does not detach it |
| RegistryInvariant.PublicationKeys | src/core/participant/participant.cpp:85-112 | publication keys are the non-empty track sids of the last accepted info |
| RegistryInvariant.MuteKeeps | src/core/room.cpp:945-974 | a mute change keeps the invariant; publications agree with the last info up to their mute state |
| RegistryTable.Participant.UpdateInfoFields | src/core/participant/participant.cpp:119-151 | the info is overwritten unless it is stale |
| RegistryTable.Participant.UpdateFromInfo | src/core/participant/participant.cpp:85-112 | the two loops leave exactly the publications that the info lists |
| RegistryTable.ChangesOf | src/core/room.cpp:1949-1964 | the two loops compute the attribute patch |
| RegistryTable.ValueChanges | src/core/room.cpp:2077-2089 | metadata, name, attribute and permission events for exactly what differs |
| RegistryTable.RoomRegistry.WithdrawEach | src/core/room.cpp:2099-2121 | withdrawn publications are detached, no longer waited for and reported in key order |
| RegistryTable.RoomRegistry.ParticipantLeft | src/core/room.cpp:2014-2046 | a departure removes the participant and withdraws its publications |
| RegistryTable.RoomRegistry.ParticipantEntered | src/core/room.cpp:2049-2059 | an arrival and its publications are recorded and reported |
| RegistryTable.RoomRegistry.ParticipantChanged | src/core/room.cpp:2062-2121 | a change is recorded, with the events of the difference |
| RegistryTable.RoomRegistry.UpdateOne | src/core/room.cpp:1968-2122 | one entry of a batch does what the value model says, local and remote |
| RegistryTable.RoomRegistry.FindRemoteParticipantForTrack | src/core/room.cpp:1852-1861 | the first participant in key order that lists the track |
| RegistryTable.RoomRegistry.MediaTrackEvent | src/core/room.cpp:1148-1232 | a media track is attached to its owner or waits for it |
| RegistryTable.RoomRegistry.MediaTrackRemovedEvent | src/core/room.cpp:1234-1274 | a removed media track is detached and reported once |
| RegistryTable.RoomRegistry.RemoteMuteChangedEvent | src/core/room.cpp:945-974 | the publication of the owner is muted or unmuted and reported, only on a change |
| RegistryTable.RoomRegistry.TakeReady | src/core/room.cpp:2124-2131 | exactly the waiting tracks whose participant is known leave the waiting map |
| RegistryTable.RoomRegistry.DeliverByRank | src/core/room.cpp:2140-2180 | the listener is called list by list |
| RegistryTable.RoomRegistry.ApplyParticipantUpdates | src/core/room.cpp:1901-2187 | a batch with its loops computes the new registry and the events of the value model |
| RegistryTable.RoomRegistry.ApplyJoinResponse | src/core/room.cpp:876-939 | a join response does what the value model says; a reconnection detaches all tracks and drops participants no longer named |
| Rpc.SingleCompletion | src/core/detail/rtc_engine.cpp:904-974 | in every interleaving of acks, responses, cancellations and time-outs a result is written at most once and is what the caller gets; a success is a response with that id from the destination or an unnamed sender; a returned call is not pending |
| Rpc.ResultIsFinal | src/core/detail/rtc_engine.cpp:1589-1692 | no later step changes a result or takes a return back |
| Rpc.CallerReturns | src/core/detail/rtc_engine.cpp:948-974 | in every reachable state a caller whose deadlines pass returns within three steps of its own |
| Rpc.NextKeepsInv | src/core/detail/rtc_engine.cpp:1589-1692 | every critical section keeps the protocol invariant |
| Rpc.NextIsStable | src/core/detail/rtc_engine.cpp:1589-1692 | no critical section overwrites a result |
| RpcCauses.ResultHasCause | src/core/detail/rtc_engine.cpp:1610-1692 | in every run a result is what a response to this call carried, the code of a cancellation that covers its destination, or a time-out of its own wait; a success and a remote error only the first |
| RpcCauses.FirstResponseIsReturned | src/core/detail/rtc_engine.cpp:1625-1640 | if a response is the first to reach an open call, a caller that returns, whatever happens then, returns what it carried |
| RpcCauses.ResponseCompletes | src/core/detail/rtc_engine.cpp:1610-1640 | a response to a pending call from its destination or unnamed reaches it and completes it with its payload or error |
| RpcCauses.CallIsAnswered | src/core/detail/rtc_engine.cpp:904-974 | from any state of a run, a call registered under a new id, sent and answered returns the answer and is not pending |
| RpcCauses.StaysPending | src/core/detail/rtc_engine.cpp:924-947 | a registered call stays pending until one of its id fails to be sent, it is cancelled, or it returns |
| RpcCauses.AcknowledgedWaitsOn | src/core/detail/rtc_engine.cpp:1589-1608 | an acknowledgement keeps the first wait from timing out |
| RpcCauses.OpenCallFails | src/core/detail/rtc_engine.cpp:951-963 | a wait that runs out completes the call with the code of that wait |
| RpcCauses.CancelledCallFails | src/core/detail/rtc_engine.cpp:1666-1692 | a cancellation that covers the destination completes an open call with its code |
| Lifecycle.LifecycleTrace | src/core/room.cpp:729-874 | over every run no state is reported twice in a row, the last one reported is the current one, and OnReconnected is never more frequent than OnReconnecting at any moment |
| Lifecycle.DisconnectedOncePerConnect | src/core/room.cpp:190-202 | OnDisconnected comes at most once per Connect if and only if the run has no notification with the flag clear, then a reset of the flag, then another notification, without a Connect claiming the state in between |
| Lifecycle.QuietWindowKeepsOnce | src/core/room.cpp:195-201 | it does if no notification takes effect between a claim of the state and its reset of the flag |
| Lifecycle.NotificationInWindowReopens | src/core/room.cpp:195-201 | after any run, such a notification followed by the reset clears the flag although OnDisconnected was reported |
| Lifecycle.ReopenedBreaksOnce | src/core/room.cpp:318-341 | from there the engine and one Disconnect report OnDisconnected a second time without another Connect |
| Lifecycle.LateResetRepeatsDisconnected | src/core/room.cpp:190-341 | a run that does: Disconnect overtakes Connect before it resets the flag |
| Lifecycle.OnceSeparates | src/core/room.cpp:847-854 | at most once means that between two OnDisconnected lies a report of Connecting |
| Lifecycle.StepKeepsInv | src/core/room.cpp:729-874 | every access to the state and the flag keeps the invariant behind the trace |
| Lifecycle.ReadingIsRight | src/core/room.cpp:847-874 | the summary used in the proof says exactly whether the trace keeps each promise |
| LifecycleCalls.ConnectThatFails | src/core/room.cpp:190-225 | a Connect that fails is reported as Connecting and Failed |
| LifecycleCalls.ConnectThatSucceeds | src/core/room.cpp:190-225 | one that succeeds is reported as Connecting, Connected and OnConnected, and a disconnection will be reported again |
| LifecycleCalls.FailedConnectFails | src/core/room.cpp:211-221 | whatever happened meanwhile, a Connect that fails leaves the room failed |
| LifecycleCalls.DisconnectCall | src/core/room.cpp:318-341 | a Disconnect is reported as Disconnecting, Disconnected and OnDisconnected if it was not, or does nothing |
| LifecycleCalls.LostConnection | src/core/room.cpp:796-811 | a lost connection fails the room and is reported once; a room that is leaving or gone is left alone |
| LifecycleCalls.ReconnectionEvents | src/core/room.cpp:737-794 | only a connected room reconnects and only a reconnecting one has reconnected, each reported |
| LifecycleCalls.EveryConnectionIsReported | src/core/room.cpp:729-735 | over every run OnConnected is reported exactly as often as the engine connects |
| LifecycleCalls.ReportedChangesAreLegal | src/core/room.cpp:729-874 | over every run Connecting is reported only after Disconnected or Failed and Reconnecting only after Connected |
| Telling.HeardInOrder | src/core/room.cpp:856-874 | the listener hears the reports in the order of the changes if and only if no report overtakes a different one |
| Telling.ListenerHears | src/core/room.cpp:856-874 | then the promises hold of what the listener hears, and when nothing is due it heard the current state last |
| Telling.OvertakenReport | src/core/room.cpp:195-200 | a run in which Disconnect overtakes the report of Connect and the last state heard is an old one |
| Recovery.RunRecovery | src/core/detail/rtc_engine.cpp:531-660 | at most max(1, join_retries) full attempts; exactly one of resumed, reconnected, disconnected as the last report, or none and then a stop was requested; resumed exactly when a resume was possible and no full reconnect was asked for; reconnected at the first attempt that succeeds; disconnected when none did and no further one is possible; no attempt without address, token and the policy's consent; no final report after a stop |
| Recovery.DelaysAreBounded | src/core/option/reconnect_policy.cpp:25-33 | the delays of n attempts sum to exactly 9000 + 7000 (n - 5) ms from the fifth attempt on and never to more than 9000 + 7000 max(0, n - 5) ms |
| Recovery.DefaultPolicyDelays | src/core/detail/rtc_engine.cpp:571-600 | under the default policy, what a recovery waits in all is that sum, within that bound |
| RecoveryRoom.RecoveryDrivesRoom | src/core/detail/rtc_engine.cpp:488-660 | for every list of calls that RunRecovery may make, with any steps of other threads before, between and inside them that leave the state alone: announced once, then connected and told reconnected once, or failed and told disconnected, or reconnecting still if stopped |
| RecoveryRoom.OthersDoNotMatter | src/core/room.cpp:737-811 | such steps change nothing in what the recovery makes of the room |
| RecoveryRoom.NotificationAwaited | src/core/room.cpp:796-811 | a notification that fell due stays due until it has run |
| RecoveryControl.OneRecoveryAtATime | src/core/detail/rtc_engine.cpp:488-529 | if StopRecovery never clears the flag while a recovery is being started or runs, at most one is under way and holds the flag |
| RecoveryControl.EarlyStopDoubles | src/core/detail/rtc_engine.cpp:469-486 | if it does, after any run, the next Connect and loss of connection put a second one under way |
| RecoveryControl.StopWhileStarting | src/core/detail/rtc_engine.cpp:488-529 | a run to that point: a start has claimed the flag and not made its thread |
| RecoveryControl.BarredIsNotAllowed | src/core/detail/rtc_engine.cpp:488-491 | after one gave up no start passes its test until a Connect has succeeded |
| RecoveryControl.NoneAfterGivingUp | src/core/detail/rtc_engine.cpp:488-529 | if no recovery gives up while a start is on its way, none is announced or begun after one gave up |
| RecoveryControl.LateGiveUpDisobeys | src/core/detail/rtc_engine.cpp:645-660 | if one does, after any run, that start announces or begins one after it gave up |
| RecoveryControl.LateStart | src/core/detail/rtc_engine.cpp:488-529 | a run to that point |
| RecoveryControl.LossStartsRecovery | src/core/detail/rtc_engine.cpp:488-529 | a loss of the connection while recovery is allowed and idle is announced and begins one |
| RecoveryControl.RequestDuringRecovery | src/core/detail/rtc_engine.cpp:497-505 | while one is in progress only a forced request has an effect, an announcement and the flag |
| RecoveryControl.ConnectAllowsRecovery | src/core/detail/rtc_engine.cpp:211-241 | a Connect that succeeds allows recovery again; a stop and a server that asks to leave end it |
| Rbsp.UnescapeEscape | src/core/e2ee/frame_crypto_transformer.cpp:453-568 | unescaping undoes escaping for every byte string |
| Rbsp.EscapeHasNoStartCode | src/core/e2ee/frame_crypto_transformer.cpp:453-458 | escaped bytes contain no 00 00 00, 00 00 01 or 00 00 02 |
| Rbsp.NeedsRbspUnescaping | src/core/e2ee/frame_crypto_transformer.cpp:115-124 | the guard finds a 00 00 03 that is not at the very end, and only that |
| Rbsp.GuardIsExact | src/core/e2ee/frame_crypto_transformer.cpp:560-568 | on escaped bytes the guard is true exactly when escaping changed something, so guarded unescaping is exact |
| Rbsp.EscapeIsMinimal | src/core/e2ee/frame_crypto_transformer.cpp:453-458 | escaping changes exactly the bytes that contain 00 00 followed by 00 to 03 |
| Rbsp.EscapeOfTriple | src/core/e2ee/frame_crypto_transformer.cpp:453-458 | one 03 is inserted in front of the third byte |
| KeyRing.RatchetWindow | src/core/e2ee/frame_crypto_transformer.cpp:616-682 | a hit is at the least k within the window whose ratcheted key opens the payload; a miss means there is none before a key that cannot be derived |
| KeyRing.ParticipantKeyHandler.OpenBox | src/core/e2ee/frame_crypto_transformer.cpp:616-682 | success moves one slot to the key that opened the payload, failure restores it, all other slots are unchanged |
| Envelope.GetUnencryptedBytes | src/core/e2ee/frame_crypto_transformer.cpp:126-190 | the clear-header length, truncated to 8 bits as in the source |
| Envelope.HeaderAgreement | src/core/e2ee/frame_crypto_transformer.cpp:126-190 | the receiver recomputes the sender's header length if and only if the slice offset plus 2 fits in 8 bits or is a multiple of 256 |
| Envelope.HeaderCanDisagree | src/core/e2ee/frame_crypto_transformer.cpp:144-160 | a frame with its slice at byte 303: 49 clear bytes, which no receiver recomputes |
| Envelope.UnwrapWrap | src/core/e2ee/frame_crypto_transformer.cpp:415-612 | the receiver gets back header, nonce, sealed payload and key index |
| Envelope.FrameRoundTrip | src/core/e2ee/frame_crypto_transformer.cpp:359-695 | with the sender's key material the frame opens at once to the original bytes |
| FrameCryptor.EndToEnd | src/core/e2ee/frame_crypto_transformer.cpp:359-695 | whatever encryptFrame delivers, decryptFrame delivers as the original bytes, for every frame and codec, under the conditions named in the lemma |
| FrameCryptor.OpenedFrame | src/core/e2ee/frame_crypto_transformer.cpp:481-695 | a frame that passes the checks and opens is forwarded with its header restored |
| FrameWire.OnTheWire | src/core/e2ee/frame_crypto_transformer.cpp:126-479 | an encrypted frame is its first 1, 10, 3, 0 or first-slice-offset-plus-2 modulo 256 bytes by codec, then the sealed rest, the nonce, 12 and the key index, escaped for H.264 and H.265 |
| FrameWire.NothingLeavesClear | src/core/e2ee/frame_crypto_transformer.cpp:359-479 | with encryption on, a frame leaves sealed or not at all, and for want of a key exactly when there is none at the index |
| FrameWire.NothingEntersUnopened | src/core/e2ee/frame_crypto_transformer.cpp:481-695 | with decryption on, what is forwarded was opened by a key or carried the magic suffix |
| FrameWire.RefusedOnReceipt | src/core/e2ee/frame_crypto_transformer.cpp:540-603 | which received frames are refused as undecryptable, for want of a key, or dropped, by their bytes |
| FrameWire.MagicSuffixIsCut | src/core/e2ee/frame_crypto_transformer.cpp:523-538 | a frame with the magic suffix is forwarded without it |
| FrameWire.ForwardedAsTheyAre | src/core/e2ee/frame_crypto_transformer.cpp:498-521 | without encryption, and for empty frames, both ends forward what they get; without a sink neither does |
| FrameCryptor.TakeApart | src/core/e2ee/frame_crypto_transformer.cpp:540-588 | the tests and slices of the receiver recover exactly the parts of the frame |
| FrameCryptor.FrameCryptorTransformer.MakeIv | src/core/e2ee/frame_crypto_transformer.cpp:708-724 | the nonce of this call and the counter of the next |
| FrameCryptor.FrameCryptorTransformer.EncryptFrame | src/core/e2ee/frame_crypto_transformer.cpp:359-479 | every branch: what is forwarded, which state is recorded and reported, which counter moves |
| FrameCryptor.FrameCryptorTransformer.OpenFrame | src/core/e2ee/frame_crypto_transformer.cpp:616-695 | the keyed part: forwarded bytes, reports and slots after a hit or a miss |
| FrameCryptor.FrameCryptorTransformer.DecryptFrame | src/core/e2ee/frame_crypto_transformer.cpp:481-695 | every branch: what is forwarded, which state is recorded and reported, which slot moves |
| FrameCryptor.DecryptPacket | src/core/e2ee/frame_crypto_transformer.cpp:780-858 | data packets open by the same window search, and a failure leaves every slot as it was |
| Iv.IvCoincidence | src/core/e2ee/frame_crypto_transformer.cpp:708-724 | two nonces coincide exactly when SSRC and timestamp agree and the counts agree modulo 65535 |
| Iv.IvLayout | src/core/e2ee/frame_crypto_transformer.cpp:708-724 | a nonce is SSRC, timestamp and timestamp less the count modulo 65535, each in four bytes, the most significant first |
| Iv.CountsAfter | src/core/e2ee/frame_crypto_transformer.cpp:708-724 | each SSRC's counter is the number of its calls modulo 2^32, whatever other SSRCs do |
| Iv.IvsAreDistinct | src/core/e2ee/frame_crypto_transformer.cpp:708-724 | in every run, nonces of different SSRCs differ, and those of one SSRC differ within 65535 consecutive calls below 2^32 calls |
| Iv.CoincidenceInRun | src/core/e2ee/frame_crypto_transformer.cpp:708-724 | two nonces of a run coincide exactly when SSRC and timestamp agree and the wrapped counts agree modulo 65535 |
| Iv.WrapRepeatsIv | src/core/e2ee/frame_crypto_transformer.cpp:708-724 | in a run of more than 2^32 calls alike, two consecutive ones repeat a nonce when the counter wraps |
| Percent.Encode | src/core/detail/uri.cpp:141-163 | the loop encodes every character but unreserved and excluded ones |
| Percent.Decode | src/core/detail/uri.cpp:102-130 | the loop decodes, and refuses exactly the malformed |
| Percent.PercentRoundTrip | src/core/detail/uri.cpp:102-163 | decoding undoes encoding if and only if no '%' or '+' of the value was excluded from encoding |
| Percent.EncodedIsSafe | src/core/detail/uri.cpp:133-163 | encoded text holds unreserved characters and '%' only |
| Percent.DecodesEach | src/core/detail/uri.cpp:102-130 | an escape in either case is its octet, '+' is a space, any other character is itself |
| Percent.RefusesBrokenEscape | src/core/detail/uri.cpp:108-113 | a '%' without two hexadecimal digits is refused |
| Percent.EncodesEach | src/core/detail/uri.cpp:133-163 | letters, digits and "-._~" are themselves, any other octet is escaped in upper case |
| UrlRoundTrip.ParseFits | src/core/detail/uri.cpp:28-100 | each part of a parsed URL is free of what would end it |
| UrlRoundTrip.PrintedUrlComesBack | src/core/detail/uri.cpp:186-221 | parsing a printed URL gives back exactly the same parts but for a leading slash of the path and a leading question mark of the first name; without a scheme, "://" elsewhere becomes one |
| UrlRoundTrip.QueryComesBack | src/core/detail/uri.h:32-46 | what the printed parameters parse to, exactly |
| UrlText.ParseOfText | src/core/detail/uri.cpp:28-100 | scheme in any case, host, port, path, query and fragment in their places are the parts of the URL, and each parameter is the last field of its name, empty for a flag |
| UrlText.FieldsAreAdded | src/core/detail/uri.cpp:165-184 | the fields of a query one by one: the last one of a name counts, a nameless one is ignored |
| UrlText.PortsRefused | src/core/detail/uri.cpp:53-84 | no digits, a number above 65535, and anything but a path or query behind the port are refused, each with its error |
| SignalUrl.Url.Read | src/core/detail/uri.cpp:28-100 | the constructor, with its errors for empty, too large and malformed ports |
| SignalUrl.Url.AppendQueryParameters | src/core/detail/uri.cpp:165-184 | the loop adds each non-empty name with its value, later ones overwriting |
| SignalUrl.Url.FormatQuery | src/core/detail/uri.h:32-46 | the loop prints the parameters in key order |
| SignalUrl.Url.GetUrlWithoutQuery | src/core/detail/uri.cpp:186-211 | scheme, host, port and path as printed |
| SignalUrl.Url.GetAbsoluteUrl | src/core/detail/uri.cpp:218-221 | the whole URL as printed |
| SignalUrl.SetParameter | src/core/detail/signal_url.cpp:28-30 | one more parameter is set to the encoded value |
| SignalUrl.BuildSignalUrl | src/core/detail/signal_url.cpp:34-58 | the base with all parameters set, printed, or the error of parsing the base |
| SignalUrl.SignalUrlRoundTrip | src/core/detail/signal_url.cpp:34-58 | parsing the result: with a scheme it always parses, scheme, host and port are the base's and every parameter that was set decodes to the given string; path and all other parameters are unchanged if and only if the path has no leading slash and no question mark starts the first name |
| SignalParameters.SignalUrlParameters | src/core/detail/signal_url.cpp:34-58 | by name, what the parameters of the address decode to: token, auto_subscribe, sdk and version with their defaults, protocol 15, and adaptive_stream, reconnect, sid and reconnect_reason under their conditions, otherwise as in the base |
| SignalUrl.DoubleSlashIsLost | src/core/detail/uri.cpp:199-208 | a path that starts with a slash loses it |
| SignalUrl.QuestionMarkIsLost | src/core/detail/uri.cpp:165-184 | a first name that starts with a question mark loses it |
| Negotiation.RtcSession.RequestPublisherNegotiation | src/core/detail/rtc_session.cpp:281-299 | the flags, the offer and the result of a request |
| Negotiation.RtcSession.PublisherNegotiationCompleted | src/core/detail/rtc_session.cpp:301-315 | the flags and the offer after an answer |
| Negotiation.RtcSession.PublisherNegotiationNeeded | src/core/detail/rtc_session.cpp:221-224 | a request without ICE restart, and publishing is remembered |
| Negotiation.RtcSession.RestartPublisherIce | src/core/detail/rtc_session.cpp:270-279 | a request with ICE restart, unless there is nothing to restart |
| Negotiation.OneOfferOutstanding | src/core/detail/rtc_session.cpp:281-315 | in every run at most one offer is outstanding, exactly while in flight; pending and ICE-pending hold exactly while such requests wait |
| Negotiation.OffersServeRequests | src/core/detail/rtc_session.cpp:301-315 | every offer serves some request made before it, and restarts ICE exactly when one of those asked for it |
| Negotiation.RequestsAreCovered | src/core/detail/rtc_session.cpp:281-315 | absent a failing offer at an answer, once no offer is outstanding every accepted request is covered by an offer started at or after it, with ICE restart if asked |
| Negotiation.WhenRequestsAreLost | src/core/detail/rtc_session.cpp:312-314 | a step loses a request if and only if it is an answer with requests waiting and the new offer fails |
| Negotiation.LostRequest | src/core/detail/rtc_session.cpp:301-315 | a legal run that loses a request: the offer for a waiting one fails at the answer |
| Negotiation.RequestAnswers | src/core/detail/rtc_session.cpp:281-299 | a request is accepted behind an outstanding offer, or starts one of its own exactly when it works |
| Negotiation.AnswerAnswers | src/core/detail/rtc_session.cpp:301-315 | an answer starts a new offer exactly when requests wait and it works, with ICE restart if one of them asked |
| Utf8.ValidPrefixes | src/core/detail/rtc_engine.cpp:70-79 | the valid prefixes of valid UTF-8 are those not followed by a continuation byte |
| Utf8.EncodingsAreValid | src/core/detail/rtc_engine.cpp:70-79 | the encoding of any Unicode scalar values is valid text |
| Utf8.ValidIsEncoding | src/core/detail/rtc_engine.cpp:70-79 | valid text is the encoding of scalar values and of nothing else |
| Utf8.TruncateUtf8 | src/core/detail/rtc_engine.cpp:70-79 | the longest valid prefix of at most the given length |
| Utf8.SendRpcResponse | src/core/detail/rtc_engine.cpp:1643-1664 | error text is the longest valid prefix within 256 and 15360 bytes; a payload is sent unchanged or refused |

## Left out

- zlib, AES-GCM, HKDF and PBKDF2, and the H.264 and H.265 parsers of libwebrtc: abstract functions with the few facts used; NAL unit search and Write/ParseRbsp follow the standards (sections 7.3.1 and 7.4.1 of ITU-T H.264).
- WebSocket, SDP, peer connections, signal messages, capture, playback, the C API and the examples: I/O and conversions.
- `key_provider.cpp`, `video_encoding.cpp`, `frame_queue.cpp`, `debouncer.cpp`, `timer.h`, `data_channel_backpressure.cpp`: would add easier members, or depend on headers that are not part of this model.
- Allocation failure, failing `inflateInit2` for a new stream, and handlers or listeners that throw; a handler is an identity that receives events.
- Inflate.InflateRawStream.Write: the statement about success needs that no earlier write was refused; a refused write is followed by the removal of its stream in the room.
- StreamTable.IncomingStreams.Handle: the mutexes are not modelled; each handler is one step. The text and byte branches of a header are one branch with a kind.
- RegistryTable.RoomRegistry.ApplyParticipantUpdates: participants are held by value, so raw pointers and shared ownership handed to the listener are not modelled; neither are subscription-status events and removed frame cryptors.
- The local participant: only its info and the events of its info; its own publications, which the client keeps until they are unpublished, and their mute events are not part of any statement.
- RegistryValues.NamesReplay: the name and the mute state of a participant or publication that is new in the batch are read by the listener from the object it is given, which is not modelled.
- Speaker, quality, stream-state, subscription-permission and data-channel buffer events: each is one lookup and one callback.
- Rpc and Lifecycle are machines on values and not classes, because their point is the interleaving of critical sections; updates in place and memory order below a mutex section are not captured.
- Rpc.SingleCompletion: the argument checks before a call is registered, wall-clock time and the wire format are left out; a time-out may fire at any moment.
- Lifecycle.LifecycleTrace: a listener is attached throughout; reports are in the order of the changes, and `Telling` says when they are heard so. The calls of one recovery thread are sequential.
- Recovery.RunRecovery: what a forced request between the reset of the flag and the test for a resume does is not claimed; ResumeTransport and ConnectTransport are answers of the environment.
- RecoveryRoom.RecoveryDrivesRoom: nothing is claimed of a recovery that starts while the room is still connecting, or is crossed by a step that changes the state, such as a Disconnect.
- RecoveryControl.OneRecoveryAtATime: the handle of the recovery thread is not modelled, so neither is what a second start does to it.
- FrameCryptor.FrameCryptorTransformer.DecryptFrame: the failure tolerance of the key handler is not part of this model, so after a failed decryption the recorded state may or may not change; the reports follow it. Loops that copy a byte range are slices.
- FrameCryptor.EndToEnd: data packets are sealed with a random nonce, which is a parameter of the AEAD here.
- Negotiation.RequestsAreCovered: the server answers each offer at most once and only after it was sent; an unsolicited answer is not covered.
- SignalUrl.SignalUrlRoundTrip: GetRelativeUrl and the setters that BuildSignalUrl does not use are left out.
- `std::string` is a sequence of characters; where octets matter (percent-encoding) the input is restricted to octets by its type.
