# Verified model of the S7 protocol oracles

The Python oracles under `integration/` decide what a correct classic S7 client does: which
histories a session may leave behind when connections are lost, how a batch of items is
packed into PDUs, which octets are a valid request or reply, and how a capture is turned
back into PDUs. They are written independently of each other and are used to judge the
client. This project models them in Dafny and proves what they promise, for every input
and over whole runs, and that they agree with one another wherever they overlap.

Octets are integers 0..255, and every field width is written out. A Python exception is a
failure result (`None`, `Err`, a rejected category), never a precondition, unless this file
says otherwise. Event lists, item lists, segment lists, allowances and failure counts are
unbounded.

| module | what it models |
|---|---|
| `Bytes`, `Wire` | octet fields; multi-item record layout and its exact parser; request encoding |
| `WireOctets` | every octet of a request or record, by its offset |
| `Response`, `Multi` | the session's response decoder, the fuzzing campaign's reply encoder, the strict corpus decoder and request checker |
| `ResponseOctets` | what each octet of a reply decides |
| `Progress` | the write-progress machine |
| `Session`, `SessionMachine`, `SessionRuns` | the session oracle: transition function and invariants, the object that runs it, properties of whole runs |
| `SessionTable` | the session oracle's answer to every event in every phase |
| `Reconnect` | the live campaigns' closed forms, derived from the session oracle |
| `Conversation`, `ConversationTable` | the primitive conversation oracle, and its answer to every event |
| `Planner`, `PlannerProofs`, `PlannerChunks` | the batch planner and its optimality, chunks included |
| `PlannerWire`, `PlannerOctets` | a batch's request and reply, as packets and by their octets |
| `Reassembly` | TCP to TPKT to COTP reassembly (TPKT: section 6 of RFC 1006; data TPDU: section 13.7 of RFC 905) |
| `ReassemblyMessages` | the messages returned: side, frame and octets |
| `Capture` | pcap, Ethernet, IPv4 and TCP: writer, reader, segment extraction |
| `CaptureFrames` | captures other programs write: both byte orders, VLAN tags, options, any flags, files cut short |
| `Userdata`, `UserdataOctets` | the USER_DATA fragment assemblers and the continuation loop, and the octets of their requests and replies |
| `Reducers` | the two delta-debugging reducers |
| `Blocks` | block directory counts and block entry lists |

Code that changes state in place is modelled by classes and loops (`SessionMachine.Machine`,
`Conversation.Oracle`, `Reassembly.Reassembler`, and the loop methods), each tied by its
`ensures` to a function; the properties are then proved about that function. The modules
named for octets, tables, chunks, messages and frames state, in literal octets and constants,
what those functions come to, so that no definition is fixed by itself alone. `dafny verify
dfyconfig.toml` checks the whole project.

Five results are sharper than, or different from, what the code's comments suggest:

- The planner is optimal for its own conservative budgets. Measured against the octets
  actually sent it is optimal, for lists of nonempty items that fit alone, if and only if the
  PDU length is even or below 47 (writes) or 36 (reads): `PlannerProofs.WireOptimalExactly`,
  which gives the bound for every smallest item size. On every other length
  `PlannerProofs.OddPduWastes` names two items that one PDU would carry and the planner
  sends in two; up to PDU 8215 the encoder sends them (`PlannerWire.WastefulBatchTravels`).
- Every item is delivered if and only if the PDU is at least 29 (writes) or 24 (reads)
  octets: `PlannerProofs.MinPduIsExact`.
- The strict corpus decoder accepts exactly those PDUs the session decoder accepts that also
  have kind 3 and a zero reserved field: `Multi.StrictDecoderIsIncluded`.
- The two USER_DATA decoders agree exactly on success codes with a zero reserved field, for
  groups below 16; above that the management decoder accepts nothing, although the
  assembler still takes fragments: `Userdata.DecodersAgree`,
  `Userdata.FragmentsAreDecodedExactly`.
- The bound of `4 * budget + 2` state changes per operation is reached:
  `Reconnect.BoundIsReached`.

## Model

| member | source | states |
|---|---|---|
| Session.NextInv | integration/session_conformance.py:175-254 | every event keeps the invariant (phase determines lifecycle and active reference, the attempt history has the shape its phase demands, sends are paid for), and the `write-progress` rejection of a send can never happen |
| Session.FailInv | integration/session_conformance.py:156-173 | a failure, permitted or terminal, keeps that invariant |
| Session.StatusCount | integration/session_conformance.py:147-154 | an accepted response has exactly as many statuses as locations in flight, so the strict pairing cannot mismatch |
| Session.FinishSettles | integration/session_conformance.py:147-154 | settling appends one outcome per location in flight, in order, and nothing else |
| SessionMachine.Machine.FailWith | integration/session_conformance.py:156-173 | the in-place failure handler leaves the specified state and reports whether a retry is permitted |
| SessionMachine.Machine.BeginOperation | integration/session_conformance.py:197-209 | begin resets allowance, sends and history, or is rejected without effect |
| SessionMachine.Machine.SendRequest | integration/session_conformance.py:210-219 | a send puts the configured locations in flight, and is never rejected for write progress |
| SessionMachine.Machine.ReportError | integration/session_conformance.py:220-226 | a failure is handled only while a reply or a reconnect is awaited |
| SessionMachine.Machine.StartSetup | integration/session_conformance.py:227-231 | only a COTP reconnect moves on to setup |
| SessionMachine.Machine.FinishReconnect | integration/session_conformance.py:232-240 | only a disconnected setup becomes ready again |
| SessionMachine.Machine.ReceiveResponse | integration/session_conformance.py:241-252 | a response settles the operation or fails it with the decoder's error |
| SessionMachine.Machine.Handle | integration/session_conformance.py:196-254 | the object refines the transition function event by event and stays valid |
| SessionTable.FailureAnswered | integration/session_conformance.py:156-173 | while a reply or a reconnect is awaited, a failure is retried exactly when allowance is left, the operation reads or has opted in, and the kind is timeout, disconnected or transport; a retry waits for COTP with what was in flight replayed-unknown, anything else fails the operation, globally rejecting what was in flight exactly when the PLC refused |
| SessionTable.FailureElsewhere | integration/session_conformance.py:220-226 | in every other phase a failure is rejected and changes nothing |
| SessionTable.BeginAnswered | integration/session_conformance.py:197-209 | from idle or completed an operation starts afresh with the full allowance; an active one or a lost connection is refused |
| SessionTable.SendAnswered | integration/session_conformance.py:210-219 | a send is taken in the ready phase alone, counts once, and puts a write's locations in flight |
| SessionTable.ReconnectAnswered | integration/session_conformance.py:227-254 | COTP leads to setup, setup to ready and connected, in that order alone; a disconnect closes the session |
| SessionTable.WriteAnswered | integration/session_conformance.py:79-133 | an awaited write response completes the operation exactly when every header octet matches and there is one octet per location; octet 14 + i then decides location i, 255 being success and any other its own failure; an error octet on a response that is ours rejects the locations globally |
| SessionTable.ReadAnswered | integration/session_conformance.py:79-133 | an awaited read response completes the operation exactly when every header octet matches and some division of the rest into records of the requested sizes fills it |
| SessionTable.ResponseElsewhere | integration/session_conformance.py:241-245 | a response that is not awaited is rejected and changes nothing |
| SessionMachine.SessionTrace | integration/session_conformance.py:136-271 | one step per event: its result and the snapshot of the state reached by the run so far |
| SessionTable.TraceShows | integration/session_conformance.py:255-271 | step i holds the answer to event i and every visible field of the state reached, with what is in flight shown as pending |
| SessionRuns.AttemptStructure | integration/session_conformance.py:136-271 | after any run the attempts are one copy of the locations per send: all but the last replayed-unknown, the last uniformly pending, replayed or globally rejected, or decoded; reads have none |
| SessionRuns.CompletionRecordsAnswer | integration/session_conformance.py:241-252 | a completed operation's last block carries exactly the statuses of the last accepted response, in order |
| SessionRuns.OverIsFinal | integration/session_conformance.py:156-254 | a failed or closed session never becomes active again; allowance, sends and attempts are frozen |
| SessionRuns.AllowanceAccounted | integration/session_conformance.py:156-219 | once an operation has begun, in every later state, closed ones included: permitted retries plus what remains equal the allowance, sends exceed permitted retries by at most one, and a write without opt-in is sent at most once |
| SessionRuns.NeverReplaysAnswers | integration/session_conformance.py:241-252 | no response ever spends the allowance or triggers a replay |
| SessionRuns.RankDescends | integration/session_conformance.py:175-254 | while an operation is active each event changes nothing, ends it, or lowers its rank |
| SessionRuns.OperationsEnd | integration/session_conformance.py:156-254 | an accepted operation ends within 4 * budget + 2 state changes, whatever the environment does |
| SessionRuns.SessionRefinesProgress | integration/session_conformance.py:136-271 | projecting any run since its last accepted begin onto send, replay, acknowledge and global-reject is accepted by the write-progress machine, with the same attempts, and the four counts partition them |
| Progress.DecodeProgress | integration/operation_conformance.py:77-119 | the loop returns the report of the machine's trace, or rejects exactly when a step is refused |
| Progress.Conservation | integration/operation_conformance.py:77-119 | every location sent appears once, in sending order, under one outcome; the four counts add up |
| Progress.AcceptedAreLegal | integration/operation_conformance.py:80-106 | a trace is accepted exactly when no dispatch is empty or follows a dispatch, and every acknowledgement has as many results as the dispatch just before it has locations |
| Progress.OutcomeOfEachLocation | integration/operation_conformance.py:80-109 | location k of a dispatch is reported at its place among all sent, with the outcome the very next event gives it, or pending when there is none |
| Progress.ReportCounts | integration/operation_conformance.py:110-119 | each count is the number of attempts with the outcomes it stands for |
| Reconnect.SessionMatchesClosedForm | integration/generative_reconnect.py:35-66 | for every allowance and failure count and any of the three retryable kinds, playing a case's faults to the session oracle gives exactly the predicted recovery, connections, sends, counts and chronology, and agrees with the case's own arithmetic |
| Reconnect.FaultScriptRun | integration/reconnect_faults.py:17-34 | the final session state of the scripted faults, for every case |
| Reconnect.DropsMatchClosedForm | integration/retry_budgets.py:15-18 | for every allowance and drop count, repeated lost replies (timeout, disconnected or transport) take the predicted number of sends and succeed exactly when predicted |
| Reconnect.DropScriptRun | integration/retry_budgets.py:15-18 | the final session state after any number of lost replies |
| Reconnect.BoundIsReached | integration/session_conformance.py:156-254 | from a ready state with r retries left, a run that makes exactly 4r + 2 state changes before it completes |
| Bytes.BigEndian | integration/conversation_conformance.py:63-67 | sixteen-bit fields are read most significant octet first |
| Wire.RequestInjective | integration/conversation_conformance.py:55-98 | two operations with the same request octets have the same reference, ranges and direction |
| Wire.Request | integration/conversation_conformance.py:76-98 | the encoder loop yields the specified request, or none exactly when the codec refuses the ranges |
| Wire.RequestFields | integration/conversation_conformance.py:63-98 | reference, function, count and addresses can be read back at their offsets |
| WireOctets.RequestOctets | integration/conversation_conformance.py:55-73 | the header and every twelve-octet address: 12 0a 10 02, the octet count, the data block, 84, the position in bits |
| WireOctets.WriteOctets | integration/conversation_conformance.py:70-98 | every write record stands at its offset: 00 04, the length in bits, octets (7 * start + 29 * k) mod 256, and a zero pad after odd content unless it is last |
| WireOctets.RequestRefused | integration/conversation_conformance.py:76-98 | a request is refused exactly when it has no range or more than twenty, an empty or overlong one, a write of 8192 octets or more, or more than 65535 octets of data |
| Wire.ParseItemsExact | integration/session_conformance.py:112-133 | parsing records inverts laying them out, and accepts nothing else, padding included |
| WireOctets.LayoutOctets | integration/session_conformance.py:112-133 | record i of a layout stands at the sum of the padded sizes before it, field by field |
| Response.Decode | integration/session_conformance.py:79-133 | the decoder, in the source's order of checks |
| Response.AnswersAreAccepted | integration/session_conformance.py:79-133 | every answer a peer can give is accepted, whatever its reserved field, with its statuses in order |
| Response.AcceptedAreAnswers | integration/session_conformance.py:79-133 | nothing else is accepted: an accepted PDU is the encoding of the answer read from it |
| ResponseOctets.WriteVerdict | integration/session_conformance.py:79-111 | a write response is accepted exactly when every header octet matches and there is one octet per item; status i is success if octet 14 + i is 255 and otherwise the failure with that code |
| ResponseOctets.ReadVerdict | integration/session_conformance.py:112-133 | a read response is accepted exactly when every header octet matches and some division of its octets into records fills it, each success carrying exactly the octets asked for |
| ResponseOctets.Refusals | integration/session_conformance.py:79-111 | a response is refused for the PLC's reason exactly when it acknowledges this reference, fills its sections and carries an error octet; every other refusal is a protocol error |
| Response.Reply | integration/session_fuzz.py:29-52 | the unmutated reply fails only on a length overflow; otherwise the decoder accepts it and recovers the write statuses in order |
| ResponseOctets.ReplyOctets | integration/session_fuzz.py:29-52 | the octets of the unmutated reply, choice by choice, each at its offset |
| Multi.SectionsOfPacket | integration/sequence_conformance.py:17-31 | splitting a packet returns the sections it was built from |
| Multi.PacketOfSections | integration/sequence_conformance.py:17-31 | a packet that splits is the packet built from its sections |
| Multi.CheckRequest | integration/sequence_conformance.py:34-63 | the checker accepts exactly the requests whose header, addresses and write records match |
| WireOctets.CheckedOctets | integration/sequence_conformance.py:34-63 | the checker accepts exactly the packets with this header and these addresses, octet by octet, and on a write the record headers at their offsets |
| Multi.EncodedRequestsCheck | integration/sequence_conformance.py:34-63 | every request the encoder produces passes the independent checker |
| Multi.CheckedReadsAreEncoded | integration/sequence_conformance.py:34-63 | a checked read is the encoder's packet |
| Multi.CheckedWritesAreShaped | integration/sequence_conformance.py:34-63 | a checked write is the encoder's packet up to the content and padding octets the checker skips |
| Multi.DecodeMulti | integration/sequence_conformance.py:66-111 | the strict decoder's loop returns the specified items, or none |
| ResponseOctets.StrictWrites | integration/sequence_conformance.py:66-111 | octet 14 + i of an accepted write decides item i, 255 being success and any other its own failure |
| ResponseOctets.StrictReads | integration/sequence_conformance.py:66-111 | each read item has the status of its record's first octet, and on success exactly the octets behind the record header |
| Multi.StrictDecoderIsIncluded | integration/sequence_conformance.py:66-111 | the strict decoder accepts exactly the PDUs the session decoder accepts that have kind 3 and a zero reserved field, with the same write statuses |
| Conversation.NextInv | integration/conversation_conformance.py:125-273 | a reference is pending exactly while locations are, and no recorded outcome is pending |
| Conversation.RunRefines | integration/conversation_conformance.py:117-283 | every conversation is a run of the write-progress machine with the same attempts |
| Conversation.Conserved | integration/conversation_conformance.py:185-234 | the attempt locations are exactly those of the accepted sends, in order, each under one outcome, none globally rejected |
| Conversation.AttemptsOnlyGrow | integration/conversation_conformance.py:274-282 | over any continuation a settled attempt never changes and a pending one keeps its place and location |
| Conversation.ClosedIsFrozen | integration/conversation_conformance.py:133-142 | after a disconnect the whole state is frozen |
| Conversation.AcknowledgementsAgree | integration/conversation_conformance.py:209-234 | an acknowledgement of a write in flight is accepted exactly when the session decoder accepts its octets, with the same statuses |
| Conversation.ReadsAgree | integration/conversation_conformance.py:235-271 | with nothing in flight, a read is accepted exactly when its range is not empty and the session decoder accepts its response |
| Conversation.SendBytesDetermineRanges | integration/conversation_conformance.py:192-208 | accepted sends with the same request octets leave the same reference and ranges in flight |
| Conversation.Oracle.Move | integration/conversation_conformance.py:130-144 | lifecycle events move the state as specified |
| Conversation.Oracle.AskRetry | integration/conversation_conformance.py:145-191 | a permitted mutating retry marks what is in flight replayed-unknown; anything else changes nothing |
| Conversation.Oracle.SendWrite | integration/conversation_conformance.py:200-208 | a send is refused in the source's order of checks, or puts its locations in flight |
| Conversation.Oracle.Settle | integration/conversation_conformance.py:217-234 | an acknowledgement settles every location in flight with its code, or is refused |
| Conversation.Oracle.ReadRange | integration/conversation_conformance.py:262-271 | a read changes nothing and is answered in the source's order of checks |
| Conversation.Oracle.Handle | integration/conversation_conformance.py:125-273 | an event is refused exactly when its recorded wire octets are wrong; otherwise it is applied as specified |
| ConversationTable.RetryAnswered | integration/conversation_conformance.py:176-191 | a retry is permitted exactly when the connection is not closed, retries remain, the kind is timeout, disconnected or transport, and the operation reads or has opted in; only a permitted mutating retry changes anything |
| ConversationTable.MoveAnswered | integration/conversation_conformance.py:130-144 | closing is final, losing the transport does not reopen, and only a lost connection is re-established |
| ConversationTable.SendAnswered | integration/conversation_conformance.py:192-208 | a recorded send carries a request for its ranges, octet by octet, exactly when they can be written; it is taken exactly when connected, writable and nothing is in flight |
| ConversationTable.AcknowledgedAnswered | integration/conversation_conformance.py:217-234 | taken exactly when connected, for the reference in flight, with one code per location; each code then decides its location, 255 being success |
| ConversationTable.ReadAnswered | integration/conversation_conformance.py:262-271 | a read never changes the state and returns its payload exactly when connected, with nothing in flight, a range that is not empty and a payload of its length |
| Conversation.ConversationTrace | integration/conversation_conformance.py:117-283 | one step per event, or none exactly when some event is malformed |
| ConversationTable.TraceShows | integration/conversation_conformance.py:274-283 | step i holds the answer to event i, the lifecycle, and the attempts with what is in flight shown as pending |
| Planner.Plan | integration/queued_batches.py:46-86 | the planner's batches flatten to every item's pieces in order, are packed tightly around singleton chunks, and from the smallest usable PDU on fit it on the wire; it fails exactly when the chunk size is zero and some item needs chunks |
| Planner.PlanChunks | integration/queued_batches.py:65-74 | an oversized item becomes consecutive singleton batches of its chunks, each within bounds |
| PlannerChunks.ChunksAreLargest | integration/queued_batches.py:57-74 | from the smallest usable PDU on, no chunk with another behind it could have carried one more octet on the wire |
| PlannerChunks.FewestPieces | integration/queued_batches.py:57-74 | so no division of an item into pieces that each travel alone has fewer of them |
| PlannerChunks.PiecesAreAddressed | integration/queued_batches.py:58-74 | every piece is addressed at its own offset behind its item, items 2048 octets apart and the last at zero |
| Planner.ReserveIsPadding | integration/queued_batches.py:60-83 | the reserved budgets exceed the octets sent by the padding of the last record and by nothing else |
| PlannerProofs.PlanIsUnique | integration/queued_batches.py:46-86 | the planner's shape determines the plan: no other batching of the same pieces has it |
| PlannerProofs.PlannerIsOptimal | integration/queued_batches.py:46-86 | when every item fits alone no order-preserving batching of the items within the budgets uses fewer batches than the planner |
| PlannerProofs.GreedyIsOptimal | integration/queued_batches.py:75-86 | the same for any tightly packed batches of any pieces |
| PlannerProofs.WireOptimalExactly | integration/queued_batches.py:46-105 | against the octets actually sent the planner is optimal, for all lists of items of at least a given size that fit alone, exactly when the PDU length is even or too short for two such items |
| PlannerProofs.OddPduWastes | integration/queued_batches.py:46-105 | for every other PDU length, two items of at least that size which the planner sends in two batches and one PDU would carry |
| PlannerProofs.EveryItemDelivered | integration/queued_batches.py:39-86 | an item's pieces cover it contiguously and exactly once, rebuild its octets, and each travels alone |
| PlannerProofs.MinPduIsExact | integration/queued_batches.py:54-74 | every item of every list is delivered exactly when the PDU has at least 29 (write) or 24 (read) octets |
| PlannerProofs.PiecesInOrder | integration/queued_batches.py:58-86 | pieces appear in item order |
| PlannerProofs.UniformItemsMatchClosedForm | integration/multi_batching.py:97-109 | for a list of equal items that fit alone the planner's batch sizes are exactly those of the peer's independent closed form |
| PlannerProofs.UniformPlanMatchesClosedForm | integration/multi_batching.py:97-109 | the same for any tightly packed batches of equal pieces |
| PlannerWire.WireBytes | integration/queued_batches.py:89-105 | the request is the specified packet, as long as the planner accounts for, and passes the strict request checker; it is refused only when a field overflows |
| PlannerOctets.SentHead | integration/queued_batches.py:89-105 | the head of a batch's request and the address of each piece, octet by octet |
| PlannerOctets.SentRecords | integration/queued_batches.py:39-105 | every write record at its offset, with octets (29 * item + 37 * offset + 11) mod 256 |
| PlannerWire.WastefulBatchTravels | integration/queued_batches.py:89-105 | for nonempty items and PDUs up to 8215 the batch the planner splits is encodable and fits the PDU |
| PlannerWire.ReplyBytes | integration/queued_batches.py:119-131 | for any batch the reply is the specified packet, never longer than the planner's worst case, refused only on a length overflow; whoever asked for the batch, the session decoder accepts it with one status per written piece |
| PlannerOctets.ReplyHead | integration/queued_batches.py:119-131 | the head of a reply, and all of the answer to a write: code 5 for pieces of item 2, 255 for every other |
| PlannerOctets.ReplyRecords | integration/queued_batches.py:119-131 | every read record at its offset: empty with code 5 for item 2, otherwise the piece's octets |
| Reassembly.Messages | integration/real_captures.py:176-214 | the emitted messages are, segment by segment, the PDUs completed by each; fails exactly when some direction holds a frame that cannot be indexed |
| Reassembly.Reassembler.Feed | integration/real_captures.py:182-213 | one segment keeps every direction's buffers equal to what a one-shot parse of its octets leaves over |
| Reassembly.Reassembler.DrainBuffer | integration/real_captures.py:199-213 | takes every complete frame off one direction and touches no other |
| Reassembly.Reassembler.TakeTpkt | integration/real_captures.py:203-213 | skips connection TPDUs, joins data TPDUs until the last one |
| Reassembly.DrainAppend | integration/real_captures.py:197-213 | parsing is incremental: what a prefix leaves over is all that later octets need |
| Reassembly.DirectionsAreIndependent | integration/real_captures.py:176-214 | whatever the interleaving, the PDUs of one direction are a one-shot parse of the octets it received |
| Reassembly.StreamIsSentPrefix | integration/real_captures.py:182-198 | under any gap-free segmentation with duplicated or overlapping retransmissions, a direction has received exactly a prefix of what was sent |
| Reassembly.SegmentationIsIrrelevant | integration/real_captures.py:176-214 | so its PDUs depend on that prefix alone |
| Reassembly.PrefixParse | integration/real_captures.py:199-213 | parsing any prefix of a stream of well-formed frames yields the PDUs complete in it |
| Reassembly.EndToEnd | integration/real_captures.py:176-214 | from sender through any such network to the reassembler: the direction is parsed, and exactly the complete PDUs among the delivered octets come out, whole and in order |
| Reassembly.NetworkIsReassembled | integration/real_captures.py:176-214 | when every direction sends well-formed frames over such a network, the reassembler returns a result, with the complete PDUs of every direction |
| ReassemblyMessages.MessageOrigin | integration/real_captures.py:182-214 | every message is marked as the client's exactly when its direction leads to port 102, and bears the number of the segment of that direction that completed it |
| ReassemblyMessages.NetworkMessages | integration/real_captures.py:176-214 | over such a network the messages returned are the complete PDUs of every direction, each attributed to its sender's side and to the frame that completed it |
| ReassemblyMessages.BothSides | integration/real_captures.py:176-214 | on one connection, the messages marked as the client's are exactly the complete PDUs it sent, in order, and the others exactly the server's |
| ReassemblyMessages.FrameOctets | integration/real_captures.py:203-213 | what one frame adds, by its octets 4 to 6, and exactly when it cannot be indexed |
| ReassemblyMessages.LengthOctets | integration/real_captures.py:199-202 | a frame is complete exactly when the length in its octets 2 and 3 has arrived |
| ReassemblyMessages.SegmentOctets | integration/real_captures.py:182-198 | what any segment adds to its direction, gaps and repeated SYNs included |
| Capture.Write | integration/addressing_conformance.py:18-42 | the writer fails exactly when a sixteen-bit field overflows, and otherwise emits the file header and one record per packet |
| CaptureFrames.WrittenHeader | integration/addressing_conformance.py:18-19 | the file header, octet by octet |
| CaptureFrames.WrittenFrame | integration/addressing_conformance.py:20-39 | every octet of the Ethernet, IPv4 and TCP envelope |
| CaptureFrames.WrittenRecord | integration/addressing_conformance.py:40-41 | every octet of a record header |
| Capture.ReadPcap | integration/real_captures.py:116-133 | the reader's loop returns the numbered frames of either byte order |
| CaptureFrames.AnyFileIsRead | integration/real_captures.py:116-133 | an Ethernet capture in either byte order, ending cleanly or cut short anywhere, is read as its records, numbered from one |
| CaptureFrames.OtherFiles | integration/real_captures.py:116-127 | nothing is read without one of the two magic numbers, a whole header and the Ethernet link type in the same byte order |
| Capture.TcpPayloads | integration/real_captures.py:136-173 | the segments on port 102 in capture order, or none when a frame is too short |
| CaptureFrames.PacketIsExtracted | integration/real_captures.py:136-173 | whatever its VLAN tag, options, flags, sequence number and trailer, a frame with port 102 on either side yields its payload, addresses, ports, SYN bit and position; every other is skipped |
| CaptureFrames.ShortFrames | integration/real_captures.py:136-173 | exactly the frames too short for a field that is looked at are malformed |
| Capture.CaptureRoundTrip | integration/real_captures.py:116-173 | reading a written capture back recovers every payload, in order, in frames 1 to n |
| Capture.CaptureEndToEnd | integration/wireshark_corpus.py:101-103 | wrapping PDUs, capturing, reading and extracting gives segments on which the reassembler returns each PDU once, from the client, in its frame |
| Userdata.DecodeConversation | integration/sequence_conformance.py:114-145 | accepts exactly the conversations with valid fragments of which only the last clears the more flag, within both bounds, and returns the payloads in order |
| Userdata.RepliesDecode | integration/management_conformance.py:21-71 | every reply a device may give decodes to what it carries, whatever its reserved field |
| Userdata.DecodedAreReplies | integration/management_conformance.py:21-71 | nothing else is decoded |
| Userdata.DecodersAgree | integration/management_conformance.py:21-71 | the assembler takes exactly the success replies with a zero reserved field, with the same payload and more flag |
| UserdataOctets.DecodeOctets | integration/management_conformance.py:21-71 | the verdict on any PDU by its octets: protocol error, PLC refusal, or the decoded fields; only three literal group and subfunction pairs may answer with an empty acknowledgement |
| UserdataOctets.FragmentOctets | integration/sequence_conformance.py:120-139 | the fragments taken, by their octets |
| Userdata.FragmentsAreDecodedExactly | integration/management_conformance.py:39-46 | the management decoder takes every fragment the assembler takes exactly for groups below 16 |
| Userdata.RequestPduInjective | integration/management_conformance.py:74-91 | a request's octets determine its reference, profile and echoed token |
| UserdataOctets.FirstOctets | integration/management_conformance.py:74-91 | the request that starts a conversation, octet by octet |
| UserdataOctets.EchoOctets | integration/management_conformance.py:74-91 | the request that continues one, octet by octet, with its token |
| Userdata.Continue | integration/management_conformance.py:131-181 | refuses exactly the inconsistent fixtures (a request that does not echo the last token, wrong pacing, overflow); otherwise reports the least step that is rejected or changes the data unit, or the payloads in order |
| UserdataOctets.AssembledConversation | integration/management_conformance.py:131-181 | a conversation that assembles is of a supported profile, within both bounds, and each request echoes octet 17 of the reply before, each reply keeps the data unit and announces more until the last |
| UserdataOctets.TokensFreeze | integration/management_conformance.py:144-181 | after the first failure requests keep echoing the token before it |
| Userdata.AssemblersAgree | integration/management_conformance.py:144-181 | a conversation the assembler accepts is paced and joined alike by the continuation loop, and is good exactly when it keeps one data unit |
| Reducers.Minimize | integration/session_fuzz.py:218-232 | for any predicate, the result is a subsequence that still fails and no nonempty single deletion of it fails |
| Reducers.MinimizeWithin | integration/mixed_operations.py:17-44 | at most budget + 1 predicate calls; the result is a failing subsequence, shorter when its first deletion may be kept, and minimal under every single deletion when the budget is not exhausted |
| Reducers.DeletionPass | integration/mixed_operations.py:29-37 | one pass finds a failing deletion or, at width one, proves there is none |
| Reducers.DeletionRestores | integration/mixed_operations.py:30 | a candidate is the plan without one run of the given width, or of what is left at the end |
| Reducers.ReducePlan | integration/boundary_operations.py:71-89 | the same over whole operations, each retained intact |
| Blocks.DecodeBlockCounts | LeanS7/Advanced.lean:109-137 | fails at the first record it cannot take, with its fault and offset; otherwise the records are a permutation of the directory returned |
| Blocks.BlockCountsExact | LeanS7/Advanced.lean:109-137 | the accepted payloads are exactly the permutations of one record per block type |
| Blocks.OrderIsIrrelevant | LeanS7/Advanced.lean:109-137 | reordering the records changes neither acceptance nor the counts |
| Blocks.CountsInOctets | LeanS7/Advanced.lean:109-137 | the accepted payloads by their octets: prefix 30, seven different codes, each count big-endian behind its code and in the field its code stands for |
| Blocks.FaultsInOctets | LeanS7/Advanced.lean:117-127 | which records are not taken, and which octet is blamed, by literal octets |
| Blocks.OfCode | LeanS7/Advanced.lean:26-43 | inverts the type codes and refuses every other octet |
| Blocks.DecodeBlockEntries | LeanS7/Advanced.lean:145-159 | every aligned payload, and no other, is decoded, to entries whose concatenation it is: octets 0 and 1 of each are its number, 2 its flags, 3 its language |
| Blocks.EntriesRoundTrip | LeanS7/Advanced.lean:145-159 | decoding the concatenation of any entries returns them |

## Left out

- Sockets, threads, timing peers, resource sampling, JSON corpora, shape checks and command lines: input and output around the modelled functions.
- Session.NextInv: the configured request octets that a corpus records are compared with the encoder before a trace starts; the model starts from the encoder's own request.
- Random generators: the model quantifies over all inputs; the random choices of the reply encoder are parameters.
- The caps of 1024 events per trace and 16 on the allowance: the model has no cap, so the properties hold for longer runs as well.
- Reconnect.SessionMatchesClosedForm: the session oracle has no clock, so a `deadline` fault enters as any other terminal failure kind.
- Reassembly.StreamIsSentPrefix: sequence-number wrap-around, gaps, and a SYN repeated after data are not handled by the source and are excluded by the delivery condition.
- Capture.TcpPayloads: `struct.error` and `IndexError` are one malformed outcome.
- Multi.CheckRequest: a range whose bit length overflows its field makes the source raise; the model rejects it.
- Reducers.Minimize: the predicate is a pure function of the candidate; deep copies have no effect on values.
- Blocks.DecodeBlockEntries: the message text of a decode error is reduced to its kind and offset.
- Conversation.Oracle.Handle: unknown operations, event kinds and out-of-range integers are excluded by the types.
- Mutated replies of the fuzzing campaign, the remaining Lean modules, value, clock and bit codecs: small finite cases.
