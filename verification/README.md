# Verified model of termcall

termcall is a terminal video call program: cameras become grids of coloured characters, the grids
travel as text over WebRTC data channels, a signaling server introduces the peers, and a relay
limits what each user may allocate. This project models the parts of it in which state, text and
concurrency meet, and proves what they are for:

* **Video stream** (`Wrappers`, `Text`, `Frames`, `FrameGrammar`, `DeltaCodec`, `DeltaReader`,
  `FrameTag`, `VideoStream`, `ReplayFilter`, `Call`). From decimal numerals up to whole calls: the decoder
  accepts exactly the texts of a grammar, what the encoder prints is what the decoder reads, and a
  receiver behind a lossy, reordering, duplicating channel holds and shows exactly the sender's grid
  once it has a keyframe and everything since, and never holds a cell that the sender did not send there. `Call` puts the renderer in front: what arrives is a picture of the call.
* **Signaling** (`Signaling`, `Rooms`). All interleavings of all connection handlers around the room
  lock: every peer's view folded from its queue agrees with the membership up to announcements that
  are still owed. `Rooms` holds the mutable objects, tied to the state machine's transitions.
* **Relay quota** (`Quota`). Reservations, timers, live allocations and five counters stay consistent
  in every order of events, exactly when no two users share a reservation key, which the user names
  that the server issues never do.
* **Terminal output** (`Terminal`, `Renderer`). A small terminal interprets the printed text; leaving
  out redundant escapes keeps the picture, exactly when no colour fades to the default one. The
  stabiliser never drifts and the renderer's frames arrive.
* **Lifecycles** (`DeviceLifecycle`, `IceBuffer`, `Playback`). Device sessions never leak, ICE
  candidates are handed over exactly once, audio plays in order.

Concurrent code is modelled as a state machine whose steps are the critical sections, channel
operations and atomic accesses of the source; theorems about it are over every event sequence.
Single-threaded code that works in place is modelled with classes, arrays and loops, proved against
functions on values, and the theorems are about those functions.

Four laws that one might expect do not hold of the program as it is. Each has a lemma with a
concrete run or input and one that says exactly when the law does hold:

* A peer that leaves a room and enters another on the same connection can see a stranger there
  (`Signaling.RejoinSeesStranger`) or get a stray signal (`Signaling.RejoinGetsStraySignal`). Its view
  is exactly the members and the strangers, so it is right if and only if there are no strangers
  (`Signaling.QuietViews`); a signal is causal unless it crossed an admission and its sender is neither
  in the new room nor a stranger there (`Signaling.SignalCausality`). The shipped client joins once
  (internal/signaling/client.go:66-71), and then there are neither.
* A cell with the default colour right after a coloured one, which a peer may send, is shown in the
  wrong colour (`Terminal.FadingExample`; exactly when: `Terminal.ElisionExactly`).
* The second of two Closes of a device can return while the session is still open in the hands of
  the first (`DeviceLifecycle.SecondCloseReturnsFirst`; exactly when: `DeviceLifecycle.StartThenClose`).
* The loop that fills an audio request need not end while a writer keeps offering empty chunks
  (`Playback.EmptyOffersStall`). A round makes no progress exactly when it takes an empty chunk
  (`Playback.RoundExactly`), so a request ends within as many rounds as it asks for samples and there
  are empty chunks (`Playback.RequestEnds`).

Two functions have inputs on which they would go wrong but which the program never gives them. A grid
equal to the "Camera off" grid would be sent and never decoded (`VideoStream.StatusLookalikeIsSkipped`);
the call sends 30 rows where that grid has 3 (`Call.NoPictureLooksLikeStatus`). Users with bars in their
names could share a reservation key (`Quota.NilLookalike`, `Quota.SharedKeyBreaks`; exactly when:
`Quota.SharedKey`, `Quota.ConservedExactly`); issued names have none (`Quota.IssuedQuota`).

## Model

| member | source | states |
|---|---|---|
| `Text.AtoiInverse` | internal/ascii/delta.go:355-361 | parsing what Itoa prints gives back the number, and succeeds exactly for 64-bit numbers |
| `Text.AtoiUnsigned` | internal/ascii/delta.go:355-361 | a numeral without sign parses to its value, exactly if that fits 64 bits |
| `Text.AtoiSigned` | internal/ascii/delta.go:355-361 | a numeral with a sign parses to its value or the negative, exactly if that fits 64 bits |
| `Text.AtoiReadsOnly` | internal/ascii/delta.go:355-361 | nothing but digits after at most one sign parses |
| `Text.ParseUintInverse` | internal/rtc/mesh.go:246-249 | a printed natural number parses back if it fits 64 bits unsigned and is refused otherwise |
| `Text.SplitJoin` | internal/ascii/delta.go:201-206 | splitting undoes joining when no part holds the separator |
| `Text.JoinSplit` | internal/ascii/delta.go:310-313 | joining undoes splitting on every string, and no part holds the separator |
| `Text.FieldsJoin` | internal/ascii/delta.go:170-173 | white-space splitting gives back words joined by single spaces |
| `Frames.LegalExactly` | internal/ascii/delta.go:363-400 | the legal grids in numbers: 1 to 100 by 1 to 30, even rows, colours -1 to 255, characters 32 to 126 or, with half blocks, 0 |
| `Frames.ParsePrintedCellFields` | internal/ascii/delta.go:323-353 | printed cell fields parse to the cell exactly when it is legal for the mode, otherwise to the error the code gives |
| `Frames.HeaderRoundTrip` | internal/ascii/delta.go:302-308 | a printed header line is split off and parsed back to its three numbers and the body |
| `Frames.KeyframeRoundTrip` | internal/ascii/delta.go:165-224 | a printed keyframe of any legal grid decodes, on any decoder, to exactly that grid and mode |
| `Frames.DeltaRoundTrip` | internal/ascii/delta.go:226-300 | the printed changes from one legal grid to another decode, on a decoder holding the first, to the second, the empty change list included |
| `Frames.DeltaOnAnyDecoder` | internal/ascii/delta.go:254-299 | a delta that decodes on a decoder holding something else leaves each cell as it was or as the sender's new grid has it |
| `Frames.ApplyGridChanges` | internal/ascii/delta.go:98-118 | the encoder's list of changes turns the previous grid into the current one |
| `Frames.GridChangesName` | internal/ascii/delta.go:103-113 | that list names exactly the cells that differ |
| `Frames.ParsePrintedChanges` | internal/ascii/delta.go:268-296 | the printed change lines are read back in order with no position seen twice |
| `Frames.DecodeKeepsValid` | internal/ascii/delta.go:142-163 | on every input a decoder keeps a rectangular grid within 100 by 30 with cells legal for its mode |
| `Frames.KeyframeSize` | internal/ascii/delta.go:79-95 | a printed keyframe has at most 36,011 characters |
| `Frames.DeltaSize` | internal/ascii/delta.go:98-118 | a printed delta of at most half the cells has at most 27,014 characters |
| `Frames.KeyframeTextInjective` | internal/ascii/delta.go:79-95 | equal keyframe texts come from equal grids and modes |
| `FrameGrammar.DecodesKeyframeExactly` | internal/ascii/delta.go:142-224 | from every state the decoder reads a text as the keyframe of a grid if and only if it is within 131072 bytes and spells that grid in the grammar: header words, rows, cells and numerals |
| `FrameGrammar.DecodesDeltaExactly` | internal/ascii/delta.go:226-300 | the decoder comes to hold a grid by a delta if and only if the text is within 131072 bytes and spells changes that fit its grid, name no position twice and lead to that grid |
| `DeltaCodec.EncodeStep` | internal/ascii/delta.go:53-77 | encoding keeps the encoder's invariant, mode and interval, whatever the grid |
| `DeltaCodec.EncodeSize` | internal/ascii/delta.go:53-118 | every emitted string is within 36,011 bytes, so never refused for size, and only an illegal grid emits nothing |
| `DeltaCodec.KeyframeExactly` | internal/ascii/delta.go:59-76 | a legal grid is sent whole if and only if there is no previous grid of its size, frameCount + 1 reaches the interval, or the positions that differ are more than half; it becomes the previous grid and the count restarts or goes up by one |
| `DeltaCodec.SteadyStream` | internal/ascii/delta.go:59-76 | over a whole run of grids of one size that each change at most half the cells, frame i is a keyframe if and only if i is a multiple of the interval |
| `DeltaCodec.EncodeThenDecode` | internal/ascii/delta.go:53-300 | a decoder holding the encoder's previous grid, or any decoder if a keyframe is due, holds its current grid after one frame |
| `DeltaCodec.DeltasBeforeKeyframe` | internal/ascii/delta.go:59-76 | in every run of encodes, resets and mode changes fewer deltas follow than the interval has left |
| `DeltaCodec.KeyframeWithinInterval` | internal/ascii/delta.go:46-77 | any keyframeEvery consecutive emitted frames contain a keyframe |
| `DeltaCodec.KeyframeAfterChange` | internal/ascii/delta.go:46-70 | the first frame after a reset, mode change or change of size is a keyframe |
| `DeltaCodec.ValidateGrid` | internal/ascii/delta.go:363-391 | accepts exactly the legal grids and returns their size |
| `DeltaCodec.DeltaEncoder.constructor` | internal/ascii/delta.go:36-44 | a fresh encoder; an interval below one becomes 30 |
| `DeltaCodec.DeltaEncoder.Reset` | internal/ascii/delta.go:46-51 | forgets the previous grid and the frame count |
| `DeltaCodec.DeltaEncoder.Encode` | internal/ascii/delta.go:53-77 | the object's new state and text are those of the encoder on values; the text is a keyframe exactly when no previous grid has that size, the interval is over or more than half the positions differ |
| `DeltaCodec.EncodeKeyframe` | internal/ascii/delta.go:79-95 | the loop prints the keyframe text that the decoder is proved to read |
| `DeltaCodec.EncodeDelta` | internal/ascii/delta.go:98-118 | the loop prints the delta text of the changed cells, or nothing when more than half changed |
| `DeltaReader.DeepCopy` | internal/ascii/stabiliser.go:80-87 | the copy holds the same cells in arrays that are all new and distinct |
| `DeltaReader.ReadRows` | internal/ascii/delta.go:200-216 | the row-filling loop reads exactly the rows that parse, in new arrays, or the first error |
| `DeltaReader.IndexInjective` | internal/ascii/delta.go:285-289 | row-major indexes stand for positions one to one, so the seen map finds exactly the repeated positions |
| `DeltaReader.ReadChange` | internal/ascii/delta.go:269-294 | one change line is accepted or refused as parsing says, with the seen indexes standing for the positions seen |
| `DeltaReader.OverwriteCells` | internal/ascii/delta.go:266-296 | the change loop overwrites a copy as the parsed changes say, or stops at the first error |
| `DeltaReader.DeltaDecoder.DecodeCells` | internal/ascii/delta.go:142-163 | success moves to the state of the decoder on values and returns a copy sharing no array; failure changes nothing |
| `DeltaReader.DeltaDecoder.DecodeKeyframe` | internal/ascii/delta.go:165-224 | atomic: the whole new grid or no change |
| `DeltaReader.DeltaDecoder.DecodeDelta` | internal/ascii/delta.go:226-300 | atomic: works on a copy, so an error part-way leaves the grid alone |
| `FrameTag.TagRoundTrip` | internal/rtc/mesh.go:212-255 | every sequence of 1 to 2^64-1 on every frame of 1 to 131072 bytes is parsed back |
| `FrameTag.TagOverflow` | internal/rtc/mesh.go:246-249 | a tag past 64 bits is refused |
| `FrameTag.ParseTagExactly` | internal/rtc/mesh.go:238-255 | what is accepted from the network, exactly, and with which value |
| `VideoStream.StatusGridLegal` | internal/ascii/delta.go:408-434 | the status grid of every message is a legal ASCII grid |
| `VideoStream.StatusGridExactly` | internal/ascii/delta.go:408-434 | every cell of the status grid of a printable message: three rows, the message centred in the middle one, at least 16 columns, default colours |
| `VideoStream.SentExactly` | internal/tui/call.go:203-281 | each capture of a legal grid is sent as one video frame of that grid, each stop of the camera as one status frame, and nothing else is sent |
| `VideoStream.KeyframeAfterForgetting` | internal/ascii/renderer.go:66-88 | the first video frame after a reset, mode change or stop of the camera is a keyframe of the captured grid |
| `VideoStream.SendCellsValid` | internal/ascii/delta.go:53-77 | sending keeps the log of frames consistent with the encoder's state |
| `VideoStream.ReceiveIsAccept` | internal/rtc/mesh.go:556-568 | a delivered frame is accepted exactly when its tag is above the last one and fits 64 bits |
| `VideoStream.PassesExactly` | internal/rtc/mesh.go:556-568 | in every run a delivered frame passes if and only if it is newer than everything that has passed and its tag fits 64 bits, and otherwise the receiver stays as it is |
| `VideoStream.AcceptInSync` | internal/tui/call.go:235-260 | accepting a frame keeps the decoder equal to the sender's grid for every caught-up range |
| `VideoStream.AcceptTraceable` | internal/tui/call.go:235-260 | accepting a frame keeps every cell traceable to a decoded frame |
| `VideoStream.StepInv` | internal/rtc/mesh.go:212-236 | every send, reset, mode change, status frame and delivery keeps the stream's invariant |
| `VideoStream.ReachInv` | internal/rtc/mesh.go:509-514 | the invariant holds after every run with any loss, reordering and duplication |
| `VideoStream.EndToEnd` | internal/rtc/mesh.go:556-568 | after keyframe k and every video frame up to n got through, none of them reading like the status frame, the receiver's grid and mode are the sender's at n, and they are what it shows if nothing has passed since, otherwise nothing is shown |
| `VideoStream.ShownExactly` | internal/tui/call.go:243-259 | over every run something is shown if and only if a frame was decoded and no status text has passed since, and then it is the decoder's grid and mode |
| `VideoStream.NeverInvented` | internal/ascii/delta.go:218-299 | each cell held is the sender's at that place in a decoded frame no older than the last decoded keyframe |
| `VideoStream.Resynchronises` | internal/ascii/delta.go:59-76 | a receiver that loses nothing from frame a on, with no frame reading like the status frame, agrees with the sender once keyframeEvery video frames were sent |
| `VideoStream.LooksLikeStatus` | internal/tui/call.go:243-247 | a video frame is taken for the status frame exactly when it is a keyframe of that grid in ASCII mode |
| `VideoStream.SentWasCaptured` | internal/tui/call.go:275-278 | video frame i is the grid of the capture that came when i frames had been sent, in the mode of that moment |
| `VideoStream.EndToEndUnlessLookalike` | internal/tui/call.go:243-260 | end to end, held and shown, without a condition on texts for every run that captures no status grid |
| `VideoStream.ResynchronisesUnlessLookalike` | internal/tui/call.go:243-260 | resynchronisation without it for the same runs |
| `VideoStream.RacingHandlers` | internal/rtc/mesh.go:556-568 | handlers racing on the filter let through what the model's filter does one call at a time in their order of effect |
| `VideoStream.StatusLookalikeIsSkipped` | internal/tui/call.go:243-247 | a captured status grid, which only a caller other than the call could hand over, passes the filter and is never decoded |
| `Call.NoPictureLooksLikeStatus` | internal/tui/call.go:275-275 | no rendered and stabilised picture of a call is the status grid |
| `Call.SameEncoder` | internal/tui/call.go:199-216 | through every start, stop, mode change and picture the stream's encoder is the renderer's |
| `Call.PictureOf` | internal/tui/call.go:274-279 | video frame n is the picture that was taken when n frames had been sent, to within one palette step |
| `Call.CallEndToEnd` | internal/tui/call.go:235-281 | in every call and under every schedule, once a keyframe and all video frames up to n got through, the receiver holds the sender's grid of frame n and shows it until a status frame passes, and it is the picture sent as frame n to within one palette step in every cell |
| `Call.CallResynchronises` | internal/ascii/renderer.go:57-64 | a receiver that loses no video frame from some point on is in step after thirty of them |
| `ReplayFilter.RunInv` | internal/rtc/peer.go:119-129 | loads and swaps of any number of callers keep a sequential history of finished calls |
| `ReplayFilter.Linearisable` | internal/rtc/peer.go:119-129 | accepted numbers strictly increase, none is accepted twice, and lastSeq is the maximum over finished calls |
| `ReplayFilter.StepProgress` | internal/rtc/peer.go:119-129 | every step of a call lowers the bound on its remaining steps and no other caller's step raises it |
| `ReplayFilter.CallTerminates` | internal/rtc/peer.go:119-129 | a call scheduled often enough finishes, whatever the others do |
| `Signaling.RefusalKeepsRooms` | internal/signaling/room.go:107-141 | with room for one peer or more, a refused admission leaves the rooms as they were |
| `Signaling.JoinInv` | internal/signaling/handler.go:169-226 | a join request, admitted or refused, keeps the server's invariant |
| `Signaling.JoinExactly` | internal/signaling/handler.go:169-226 | in every run a peer in no room is admitted if and only if its room exists with a place free, or a new one is within the limit, the response could be made and fewer than 256 messages wait for it; it is then a member told of those before it, and otherwise no room changes and it is sent an error or cut off |
| `Signaling.RouteExactly` | internal/signaling/handler.go:228-241 | in every run a signal is addressed if and only if its target is in the sender's room |
| `Signaling.AcquireExactly` | internal/signaling/handler.go:324-333 | in every run a connection is accepted if and only if the live ones, in all and from its address, are below their limits |
| `Signaling.RefusedExactly` | internal/signaling/handler.go:168-240 | in every run a message out of place, a second join and a signal to somebody elsewhere get an error reply, or cut the peer off when 256 messages wait, and change nothing else |
| `Signaling.SignalExactly` | internal/signaling/room.go:180-193 | in every run a signal that goes out is put in its target's queue, or, when 256 messages wait there, the target is cut off and the sender gets an error |
| `Signaling.AddressInv` | internal/signaling/room.go:165-178 | taking the broadcast snapshot outside the admission's critical section keeps it |
| `Signaling.SendJoinedInv` | internal/signaling/handler.go:221-226 | telling one peer of a newcomer keeps it |
| `Signaling.SendSignalInv` | internal/signaling/room.go:180-193 | queueing a routed signal keeps it, even after the target has moved on |
| `Signaling.LeaveInv` | internal/signaling/room.go:145-163 | leaving, by request or on exit, keeps it |
| `Signaling.SendLeftInv` | internal/signaling/handler.go:282-289 | telling one remaining peer of a departure keeps it |
| `Signaling.AcquireInv` | internal/signaling/handler.go:324-333 | counting a new connection keeps it |
| `Signaling.ReleaseInv` | internal/signaling/handler.go:335-346 | uncounting an ended one keeps it |
| `Signaling.RunInv` | internal/signaling/handler.go:88-249 | the invariant holds in every interleaving of all handlers |
| `Signaling.HandlerEnds` | internal/signaling/handler.go:88-346 | no handler is ever stuck: from every state of every run its own steps alone end it, and then it is in no room and not counted |
| `Signaling.ViewConsistency` | internal/signaling/handler.go:188-226 | an uncancelled peer's folded queue names another peer exactly when that is a member or a stranger, but for members that still owe it peer_joined and leavers that still owe it peer_left |
| `Signaling.QuietViews` | internal/signaling/handler.go:221-289 | when no announcement is under way, the view is the membership and, apart from it, the strangers, so it equals the membership if and only if there are none |
| `Signaling.SignalCausality` | internal/signaling/handler.go:228-247 | every direct signal comes while the messages before it name its sender; one that crossed an admission does if and only if its sender is in the room entered last or a stranger there; none crosses before a second join |
| `Signaling.RoomSystem` | internal/signaling/room.go:107-163 | every room has 1 to MaxPeers members, membership is the handlers' current room, and rooms are within the limit and the live connections |
| `Signaling.ConnectionCounters` | internal/signaling/handler.go:324-346 | the total and per-address counters equal the live handlers and stay within their limits |
| `Signaling.RoomsWithinPeers` | internal/signaling/room.go:157-163 | rooms with members of their own are no more than the peers |
| `Signaling.MisplacedExactly` | internal/signaling/handler.go:221-226 | a delivered peer_joined names somebody outside the receiver's room, a stranger, exactly when the receiver has changed rooms |
| `Signaling.RejoinSeesStranger` | internal/signaling/handler.go:242-246 | a run after which a peer alone in its second room believes in another, with nothing left to announce |
| `Signaling.RejoinGetsStraySignal` | internal/signaling/room.go:180-193 | a run in which a crossed signal comes from somebody who was never in the receiver's second room |
| `Rooms.Peer.Enqueue` | internal/signaling/room.go:37-45 | appends within 256 messages, otherwise drops the message and cancels the peer |
| `Rooms.PeerSnapshot` | internal/signaling/room.go:221-229 | the peers of a map, each once, without the excluded one |
| `Rooms.EnqueueAll` | internal/signaling/room.go:170-177 | every peer gets the message or is cancelled, and the failures are counted |
| `Rooms.RoomManager.constructor` | internal/signaling/room.go:83-88 | no rooms |
| `Rooms.RoomManager.Admit` | internal/signaling/room.go:101-141 | the table, with its peer objects, becomes that of the admission on values; the response is queued before membership, and a peer whose queue is full is cancelled |
| `Rooms.AdmitNames` | internal/signaling/room.go:101-141 | names for names, the admission on the table is the state machine's, refusals included |
| `Rooms.AdmitElsewhere` | internal/signaling/room.go:117-139 | an admission keeps every other room's peer objects, and a refusal everybody's |
| `Rooms.RoomManager.Leave` | internal/signaling/room.go:145-163 | a current handle removes the peer and an emptied room, nothing else, and returns who remains; a stale one changes nothing |
| `Rooms.LeaveNames` | internal/signaling/room.go:157-163 | names for names, the departure on the table is the state machine's |
| `Rooms.RoomManager.RoomPeers` | internal/signaling/room.go:211-219 | the members behind a current handle, nobody behind a stale one |
| `Rooms.RoomManager.Broadcast` | internal/signaling/room.go:165-178 | each member but the excluded one gets the message once or is cancelled; the table is unchanged |
| `Rooms.RoomManager.Route` | internal/signaling/room.go:180-193 | only the named member of a current room is touched, and success says that it got the message |
| `Rooms.ConnectionCounter.Acquire` | internal/signaling/handler.go:324-333 | succeeds exactly below both limits and then counts one more |
| `Rooms.ConnectionCounter.Release` | internal/signaling/handler.go:335-346 | counts one less and drops an address with none left |
| `Quota.SharedKey` | internal/turn/server.go:313-318 | when two clients with bar-free addresses share a reservation key, exactly |
| `Quota.UsualClients` | internal/turn/server.go:313-318 | with addresses that print no bar and never as "<nil>", the key determines the user, whatever the names |
| `Quota.BarFreeUsers` | internal/turn/server.go:313-318 | with bar-free user names the key determines the user, whatever the addresses |
| `Quota.IssuedQuota` | internal/turn/server.go:218-224 | for the users the server names, the counters are conserved and bounded in every run |
| `Quota.NilLookalike` | internal/turn/server.go:313-318 | two arguments of the key function with different users and one key |
| `Quota.QuotaTracker.constructor` | internal/turn/server.go:252-260 | nothing reserved, nothing allocated |
| `Quota.QuotaTracker.Allow` | internal/turn/server.go:262-282 | allowed if and only if the key is pending, or total and pending are below the total quota and the same of the user below the user's; reserved with a timer in the second case only |
| `Quota.QuotaTracker.Created` | internal/turn/server.go:284-290 | uses up the client's reservation, if there, and counts an allocation |
| `Quota.QuotaTracker.RemovePending` | internal/turn/server.go:292-311 | releases a reservation and its counts, or nothing |
| `Quota.QuotaTracker.Deleted` | internal/turn/server.go:320-331 | counts one allocation less and drops a user with none left |
| `Quota.RunInv` | internal/turn/server.go:262-331 | counters, owners and bounds are kept by every order of events, stale timers included |
| `Quota.QuotaConserved` | internal/turn/server.go:262-331 | the totals equal the sums per user, the reservations and the live allocations, and neither quota is exceeded by more than the unreserved allocations |
| `Quota.QuotaExact` | internal/turn/server.go:262-311 | both quotas hold exactly when each creation uses up its own reservation |
| `Quota.GrantedExactly` | internal/turn/server.go:262-274 | over every run without shared keys, a client whose key is not pending gets a reservation if and only if live and reserved allocations, counted themselves, are below the total quota and those of the user below the user's |
| `Quota.CountersDecide` | internal/turn/server.go:262-331 | over every such run the five counters decide as counting would: the reservations and live allocations are those of books without counters |
| `Quota.SharedKeyBreaks` | internal/turn/server.go:284-311 | two users with one key break the counters in two events |
| `Quota.ConservedExactly` | internal/turn/server.go:262-331 | every run over given clients conserves the counters if and only if no two users share a key |
| `Terminal.ColourMeans` | internal/ascii/halfblock.go:76-84 | the printed colour escape selects that colour, and a negative one has no effect |
| `Terminal.ResetMeans` | internal/ascii/color256.go:65-66 | the printed reset selects the default attributes |
| `Terminal.SerialiseColour256` | internal/ascii/color256.go:50-85 | the loops print the output whose meaning is proved, eliding repeated escapes |
| `Terminal.SerialiseHalfBlock` | internal/ascii/halfblock.go:52-93 | the same for two attributes |
| `Terminal.SerialiseAscii` | internal/ascii/ascii.go:47-65 | the rows' characters with line breaks between them |
| `Terminal.OutputMeans` | internal/ascii/halfblock.go:52-93 | what a terminal shows for the output, which ends with default attributes |
| `Terminal.PictureCharacters` | internal/ascii/color256.go:61-79 | the output shows at each position a blank for a blank cell, the cell's character in 256-colour mode and a lower half block in half-block mode |
| `Terminal.MeantCell` | internal/ascii/halfblock.go:60-90 | what a cell is meant to look like: character, foreground and background, -1 being the default colour and a blank having no colours |
| `Terminal.RowExactly` | internal/ascii/color256.go:61-79 | a row is shown as meant exactly when no colour in it fades |
| `Terminal.ElisionExactly` | internal/ascii/color256.go:50-85 | the output shows the picture the grid stands for exactly when no cell returns to a default colour right after another colour |
| `Terminal.ElisionSameAsNaive` | internal/ascii/halfblock.go:52-93 | for non-blank cells with colours 0 to 255, the same picture as setting colours before every cell and resetting before every blank |
| `Terminal.FadingExample` | internal/ascii/color256.go:72-76 | a legal grid that is shown wrongly |
| `Terminal.AsciiMeans` | internal/ascii/ascii.go:47-65 | plain output shows at each row and column the character of that cell in default colours |
| `Renderer.PaletteNearest` | internal/ascii/renderer.go:26-42 | a colour goes to the cube entry strictly nearest in each channel, a grey to the strictly nearest step of the grey ramp, greys below 8 to black and above 248 to white |
| `Renderer.ShadeInRange` | internal/ascii/ascii.go:34-40 | the gradient index is in range without clamping, grows with brightness and runs from the first to the last character |
| `Renderer.GradientExactly` | internal/ascii/ascii.go:34-40 | the character is the k-th of the ramp from blank to @ when the luminance 0.299 r + 0.587 g + 0.114 b, scaled to the ramp, is in [k, k + 1) |
| `Renderer.RenderedPixels` | internal/ascii/ascii.go:28-41 | for every mode, row and column the rendered cell in terms of the image pixel s, t with s * w <= x * width < (s + 1) * w and likewise for rows; with half blocks the upper pixel as background and the lower as foreground |
| `Renderer.RenderCells` | internal/ascii/renderer.go:91-101 | the loops fill in the sampled cell at every position |
| `Renderer.RenderingReady` | internal/ascii/halfblock.go:32-47 | every rendered cell is legal and has all the colours of its mode |
| `Renderer.Stabiliser.constructor` | internal/ascii/stabiliser.go:22-24 | no baseline |
| `Renderer.Stabiliser.Reset` | internal/ascii/stabiliser.go:28-31 | the next frame is accepted as it is |
| `Renderer.Stabiliser.Stabilise` | internal/ascii/stabiliser.go:39-70 | the loops compute the merged grid, which becomes the baseline |
| `Renderer.StabilisedCell` | internal/ascii/stabiliser.go:57-66 | each cell is the old or the new one and within the threshold of the new one |
| `Renderer.StabilisedExactly` | internal/ascii/stabiliser.go:39-70 | each cell sent is the one sent before if that grid had the same size, the same character there and both colours within the threshold, and otherwise the camera's |
| `Renderer.NearExactly` | internal/ascii/stabiliser.go:57-66 | near cells have the same character and either colour at most the threshold away |
| `Renderer.NoDrift` | internal/ascii/stabiliser.go:39-70 | over a whole run each sent cell is the camera's in some frame, and within the threshold of it in every frame since |
| `Renderer.StillPicture` | internal/ascii/stabiliser.go:57-66 | as long as all changes are within the threshold, exactly the same grid is sent |
| `Renderer.ConvertedArrives` | internal/ascii/renderer.go:157-168 | a receiver in step, or any receiver after a reset, then holds the stabilised grid, within the threshold of the image everywhere |
| `Renderer.ReadyShowsAsMeant` | internal/ascii/renderer.go:117-127 | what the renderer makes is shown by its serialiser as meant |
| `Renderer.ColorRenderer.constructor` | internal/ascii/renderer.go:57-64 | threshold 1, keyframe every 30 frames |
| `Renderer.ColorRenderer.SetMode` | internal/ascii/renderer.go:66-75 | the new mode starts without baseline or previous frame |
| `Renderer.ColorRenderer.Reset` | internal/ascii/renderer.go:81-88 | neither baseline nor previous frame, same mode |
| `Renderer.ColorRenderer.ConvertCells` | internal/ascii/renderer.go:157-168 | rendering, stabilising and encoding in one step, as on values |
| `DeviceLifecycle.RunInv` | internal/capture/camera.go:35-143 | every interleaving of Starts, Closes and readers keeps the invariant |
| `DeviceLifecycle.NothingLeaks` | internal/capture/camera.go:35-143 | an open session is installed in the current generation or held by a call under way |
| `DeviceLifecycle.AtRest` | internal/capture/microphone_cgo.go:29-104 | with no call under way, every open session is the installed one |
| `DeviceLifecycle.NeverDisplaced` | internal/capture/camera.go:35-49 | two Starts are never under way at once and installing never displaces a session |
| `DeviceLifecycle.StartTakenExactly` | internal/capture/camera.go:35-49 | in every run a Start goes ahead if and only if no session is installed and no other Start is under way |
| `DeviceLifecycle.InstalledExactly` | internal/capture/camera.go:86-93 | in every run an opened session is installed if and only if nobody cancelled and no Close came since its Start began, and otherwise is about to be closed |
| `DeviceLifecycle.CloseIsLater` | internal/capture/camera.go:119-128 | in every run a Close makes a generation later than any call before it has seen and takes what is installed |
| `DeviceLifecycle.CallReturns` | internal/capture/camera.go:35-128 | no call is ever stuck: from every state of every run at most four steps of its own end it, a Start with its session installed exactly when not cancelled and of the current generation and closed otherwise, a Close with what it took closed |
| `DeviceLifecycle.ReaderMakesWay` | internal/capture/camera.go:97-136 | in every run a reader that ends closes its session and, if it is the installed one, clears the way for the next Start, touching nothing else |
| `DeviceLifecycle.ClearedIsGone` | internal/capture/camera.go:130-136 | in every run the installed session is not one whose reader has cleared up |
| `DeviceLifecycle.StartThenClose` | internal/capture/camera.go:81-128 | once a Start and a later Close have returned, the session is open if and only if another Close under way holds it and its reader has not ended it |
| `DeviceLifecycle.TakenIsClosed` | internal/capture/camera.go:119-128 | in every run a Close that has returned has closed what it took, and that is never installed again |
| `DeviceLifecycle.NewerSurvives` | internal/capture/camera.go:130-136 | in every run an installed session stays installed until a Close or its own reader's end, whatever other readers do |
| `DeviceLifecycle.SecondCloseReturnsFirst` | internal/capture/camera.go:119-128 | a run in which Start and a later Close have returned with the session still open |
| `IceBuffer.RunInv` | internal/rtc/peer.go:142-207 | every interleaving keeps all candidates accounted for |
| `IceBuffer.ExactlyOnce` | internal/rtc/peer.go:142-207 | a candidate taken in was given once, is still on its way, or was thrown away by Close; a refused one is never given |
| `IceBuffer.AllDelivered` | internal/rtc/peer.go:161-189 | once described and at rest, every candidate taken in was given once or thrown away |
| `IceBuffer.FlushedInOrder` | internal/rtc/peer.go:176-187 | the buffer stays within 256 and is given in the order in which it was filled |
| `IceBuffer.NeverEarly` | internal/rtc/peer.go:142-189 | nothing is given before the remote description is set |
| `IceBuffer.AddExactly` | internal/rtc/peer.go:142-159 | in every run a candidate is handed on if and only if there was no Close and the buffer has been taken, and buffered, last, if and only if there was no Close, the buffer has not been taken and holds fewer than 256; otherwise it is refused |
| `IceBuffer.SetExactly` | internal/rtc/peer.go:161-189 | in every run a description is passed on if and only if there is a connection and there was no Close, and the call that has set it takes the whole buffer |
| `IceBuffer.CallEnds` | internal/rtc/peer.go:142-189 | no call is ever stuck: from every state of every run its own steps alone end it, with its candidate given if it was past the lock, and with everything it has to take from the buffer given in order |
| `Playback.RunInv` | internal/playback/player_cgo.go:77-163 | every interleaving of the writer and the callback keeps the chunks in order |
| `Playback.PlayedInOrder` | internal/playback/player_cgo.go:104-163 | what is heard is, in order, whole chunks of those written, but for the end of the last; the queue stays within 8 |
| `Playback.NewestIsKept` | internal/playback/player_cgo.go:104-117 | only older chunks are dropped: the second attempt always finds room |
| `Playback.OnlyFullDrops` | internal/playback/player_cgo.go:104-117 | over every run each written chunk was taken, is queued, is in the writer's hands or was dropped, and no more were dropped than were offered while eight were waiting |
| `Playback.NothingLost` | internal/playback/player_cgo.go:104-117 | as long as no offer finds eight chunks waiting, none is dropped |
| `Playback.SilenceExactly` | internal/playback/player_cgo.go:134-147 | over every run silence is put out if and only if samples are asked for while nothing is left over and nothing queued |
| `Playback.RequestIsEvents` | internal/playback/player_cgo.go:127-163 | from every state a request that nobody disturbs is a sequence of the callback's takes, plays and underruns that puts out what is waiting, silence only for the rest |
| `Playback.RequestFilled` | internal/playback/player_cgo.go:104-163 | under every schedule of the loop's rounds and the writer's steps, a request puts out samples and then, at its end only, silence, exactly as much as asked for, with all that is heard in order and the queue within 8 |
| `Playback.RequestEnds` | internal/playback/player_cgo.go:131-161 | whatever the writer does, a request ends within as many rounds as samples and empty chunks queued or offered, and within as many as samples, queued chunks and steps of the writer |
| `Playback.RoundExactly` | internal/playback/player_cgo.go:131-161 | a round fills with silence if and only if nothing is left over or queued, and makes no progress if and only if it takes an empty chunk |
| `Playback.EmptyOffersStall` | internal/playback/player_cgo.go:104-118 | a writer that offers an empty chunk before every round keeps a request going for any number of rounds |
| `Playback.BytesBack` | internal/playback/player_cgo.go:150-157 | the two output bytes are the signed sample |
| `Playback.PlayerObject.WriteOpus` | internal/playback/player_cgo.go:77-118 | appends, dropping the oldest when full; a closed player takes nothing |
| `Playback.PlayerObject.OnAudioRequest` | internal/playback/player_cgo.go:127-163 | whatever the callback finds in the queue from round to round, the bytes are in order the samples left over and taken, zeros only after all of them with the queue empty, and the rest is kept; undisturbed, exactly the output of a request; the loop ends even with empty chunks |

## Left out

- Unicode: text is a sequence of characters up to 126 where the code has bytes; `strings.Fields` is modelled on ASCII white space, and bytes from 128 on are not.
- The frame sequence number, the device generation and all counters are unbounded; the 64-bit limit is stated for the tag only.
- Rate limiters, heartbeats, timeouts and full send buffers appear as frames that are not delivered, handlers that leave and peers that are cancelled at any time.
- WebRTC, ICE, SCTP, websocket and TURN libraries: a connection is a description bit and a list of what it was given; a data channel is a set of sent frames that may be delivered at any time.
- JSON encoding and validation of signaling messages: messages are values, and a message that could not be marshalled is a flag.
- Room and peer identifiers are numbers and new ones are unused; the server is configured with room for at least one peer (otherwise every refused creation leaves an empty room behind).
- Credentials, address policies, configuration checks and the user interface beyond the frame handler.
- Floating point: palette, luminance and sampling arithmetic is over exact fractions; at most the sampling and shade boundaries could differ by a rounding error.
- Status frames, frame tags, room admissions and palette indices are functions on values, though the code builds some of them in small loops.
- Renderer.Stabiliser.Stabilise: grids are values, so that the returned grid is the same object as the baseline in the code is not captured.
- Camera, microphone, candidate buffer, replay filter and playback queue are state machines over their locked sections and atomic accesses rather than classes, because their laws are about interleavings.
- Opus decoding, volume metering and device drivers: opening may fail, a decoded chunk is arbitrary.
