# Models of AgIsoStack++

AgIsoStack++ is an ISO 11783 / J1939 CAN stack. This project models its parts in which many
small steps have to add up to one promise, and proves the promise for all inputs and all runs.
`dafny verify dfyconfig.toml` checks everything.

## What is modelled

- **Extended transport protocol** (`Etp*.dfy`, `Segmentation.dfy`, `Widths.dfy`). `Etp` says what
  every handler and every state of `update_state_machine` does to a session, as a value, with
  all counters in their widths. `EtpSession` does the same to fields in place, loops included,
  and `EtpManager` keeps the table of sessions. `EtpNetwork` joins a sender and a receiver by
  two channels that keep their order and may drop frames; refused frames, timeouts and lost
  addresses are choices of the environment. `EtpSafety` proves safety and agreement over every
  run, `EtpProgress` when a run can be completed, `EtpPeer` what holds against any peer. `Runs` has
  the argument about runs that the progress proofs share, `SessionTable` the lists of sessions
  that both managers share. `EtpTimeouts` proves that nobody waits for ever, `EtpConduct` which
  frames are taken, how the others are refused and which limits are kept.
- **Transport protocol** (`Tp*.dfy`), in connection mode and broadcast, in the same way, with progress of
  a connection in `TpProgress` and of a broadcast in `TpBroadcast`, `TpTimeouts` and `TpConduct`. Its data
  frames name their packets absolutely, so the network may also duplicate and reorder frames.
- **MCP2515 driver** (`Mcp*.dfy`). The controller is an environment that may start, finish or lose
  a transmission, or store a frame, between any two SPI transactions. It sends the pending
  buffer with the highest (priority, number), section 3.2 of the MCP2515 data sheet.
- **Address claiming** (`Address*.dfy`). One node with its table and its list of inactive control
  functions, which address it chooses (`AddressChoice.dfy`), and a bus of such nodes.
- **Device descriptor object pool** (`Ddop.dfy`, `DdopRecords.dfy`, `DdopPool.dfy`, `DdopChanges.dfy`, `Geometry*.dfy`): binary
  form, parser, adding, loading and removing, reference checking, extraction of booms and sections.
- **Object pool generator** (`IopPool.dfy`) with an independent reader of what it emits (`IopReader.dfy`),
  **chunked message data** (`ChunkCache.dfy`) and **diagnostic trouble codes** (`TroubleCodes.dfy`) with an
  independent account of where each code is (`TroubleBook.dfy`).

A transmit callback is a sequence of answers, one for each frame offered during a call. Where a
method changes fields, it is proved equal to a function of the old fields, and the theorems
are about these functions.

## Where the code differs from what one would expect

- The comment at `isobus/src/can_extended_transport_protocol.cpp:672-687` says that a connection is
  aborted only once it is established, but the limit it tests starts at 255, so a timeout before
  the first clear to send always sends an abort: `EtpTimeouts.RequestTimesOut`. The model follows the
  code.
- A request to send of the transport protocol is not checked against the limit of 1785 bytes.
  `TpPeer.FilledIffWithinLimit` says exactly when a delivered buffer has been filled.
- The transport protocol never repeats a refused clear to send between two windows, nor a
  refused final acknowledgement, and the extended protocol not the latter. Such a refusal is the
  only thing that keeps a lossless transfer from ending well: `TpProgress.CompletesIff`,
  `EtpProgress.CompletesIff`.
- Neither sender goes back when a clear to send asks for an earlier packet: `TpPeer.GrantIsServedIff`,
  `EtpPeer.GrantIsServedIff`.
- `read_frame` of the MCP2515 driver can return frames in the wrong order. `McpReceive.InOrderIff`
  has the exact condition. A frame object marked as extended stays marked when it is reused for
  a standard frame: `McpRegisters.RoundTripIff`.
- A node can give up its address to a larger NAME, and can end up without an address although it
  counts as having claimed one: `AddressClaim.KeepsIff` has the exact condition.
- `add_*` accepts objects that the parser does not read back: `Ddop.RoundTripIff`.
- The parser looks at the type of a device element without asking whether the record is that long:
  `DdopRecords.ReadsInBoundsIff`.
- The occurrence count of a trouble code is documented as 0 to 126 with 127 for not available;
  the code counts modulo 256.

## Model

| member | source | states |
|---|---|---|
| `EtpSafety.Safety` | isobus/src/can_extended_transport_protocol.cpp:409-508 | In every run of one sender and one receiver over order-preserving channels that may drop frames, with any refusals, timeouts and lost addresses, at most one message is delivered and it is the sender's, for every length 1786..117440505 |
| `EtpSafety.Agreement` | isobus/src/can_extended_transport_protocol.cpp:280-305 | A sender that completes with success has had exactly its message delivered |
| `EtpSafety.RunKeeps` | isobus/src/can_extended_transport_protocol.cpp:132-305 | The invariant linking both sessions and both channels (windows, 8-bit sequence numbers, offsets, stored prefix) holds after every run |
| `EtpSafety.NextKeeps` | isobus/src/can_extended_transport_protocol.cpp:656-745 | Every single step of either session or of the bus keeps that invariant |
| `EtpProgress.CompletesIff` | isobus/src/can_extended_transport_protocol.cpp:603-745 | Take any run without losses, timeouts and a full table, with any refusals: it can be continued to delivery and sender success if and only if the acknowledgement of the last packet was not refused in it |
| `EtpProgress.RunsAreBounded` | isobus/src/can_extended_transport_protocol.cpp:603-745 | A lossless run has at most 9 steps per packet plus 7 that change anything, so nothing can go on for ever without finishing |
| `EtpProgress.HelpfulMoves` | isobus/src/can_extended_transport_protocol.cpp:656-745 | No stage before completion is stuck: an explicit lossless step lowers the measure |
| `EtpProgress.RefusedAcknowledgementStalls` | isobus/src/can_extended_transport_protocol.cpp:473-493 | When the final acknowledgement is refused the message has been delivered, the sender has not finished, and nothing but a timeout can change anything |
| `EtpProgress.OneRefusalStalls` | isobus/src/can_extended_transport_protocol.cpp:473-493 | For every message and configuration there is a run from the start in which this one refusal leaves the sender waiting for its timeout |
| `EtpTimeouts.NobodyWaitsForEver` | isobus/src/can_extended_transport_protocol.cpp:656-745 | After any run, a sender that hears nothing more has failed within 257 updates and has told its partner so, unless it was granted no packets; a receiver is gone within two |
| `EtpTimeouts.StalledEnds` | isobus/src/can_extended_transport_protocol.cpp:735-742 | From every stalled state of every run the sender's timeout reports the failure |
| `EtpTimeouts.SenderTimesOut` | isobus/src/can_extended_transport_protocol.cpp:671-742 | A waiting sender does nothing before its timeout; the timeout ends it with a failure and one abort, none only when it was granted no packets |
| `EtpTimeouts.ReceiverTimesOut` | isobus/src/can_extended_transport_protocol.cpp:700-732 | The same for a receiver that waits for an announcement or for data |
| `EtpTimeouts.RequestTimesOut` | isobus/src/can_extended_transport_protocol.cpp:671-698 | A request that is never answered is followed by an abort |
| `EtpTimeouts.OwnerIsTold` | isobus/src/can_extended_transport_protocol.cpp:580-601 | A session of the table that waited too long or lost an address leaves the table, and the owner of a transmit session is told of the failure |
| `EtpTimeouts.OthersStay` | isobus/src/can_extended_transport_protocol.cpp:580-601 | A session with valid addresses whose timeout is not over stays in the table |
| `EtpConduct.GrantTakenIff` | isobus/src/can_extended_transport_protocol.cpp:182-226 | A grant is taken exactly when it is for this message, within it and awaited; otherwise the session is left as it is and closed, with the abort each case asks for |
| `EtpConduct.AnnouncementTakenIff` | isobus/src/can_extended_transport_protocol.cpp:228-278 | An announcement is taken exactly when it is awaited, within the grant and at the acknowledged packet; each other case has its abort |
| `EtpConduct.PacketTakenIff` | isobus/src/can_extended_transport_protocol.cpp:409-508 | A packet is taken exactly when it is awaited, the next one and has a place in the buffer; each other case has its abort |
| `EtpConduct.AcknowledgementIff` | isobus/src/can_extended_transport_protocol.cpp:280-305 | An awaited acknowledgement is a success exactly when it names the right size; others are ignored |
| `EtpConduct.AnnouncementIsLeast` | isobus/src/can_extended_transport_protocol.cpp:855-897 | The announced window is the least of its four limits and starts behind the last packet |
| `EtpConduct.GrantIsLeast` | isobus/src/can_extended_transport_protocol.cpp:823-853 | The grant is the lesser of its two limits and asks for the next packet |
| `EtpConduct.UpdateIsLimited` | isobus/src/can_extended_transport_protocol.cpp:603-654 | One update sends what the window and the limit per update allow, in sequence, unless a frame is refused |
| `EtpConduct.WaitsIff` | isobus/src/can_extended_transport_protocol.cpp:643-653 | After sending, the sender waits for the acknowledgement exactly at the end of the message and for a grant exactly at the end of a window before |
| `EtpConduct.WindowsAreLimited` | isobus/src/can_extended_transport_protocol.cpp:823-897 | In every run no grant exceeds the receiver's configuration and no window that of either side |
| `EtpPeer.ReceiverIsExact` | isobus/src/can_extended_transport_protocol.cpp:409-508 | Against a peer that sends anything, the stored prefix is the concatenation of the accepted payloads and every delivered message consists of exactly the packets its size needs |
| `EtpPeer.EventsKeep` | isobus/src/can_extended_transport_protocol.cpp:132-278 | The same facts as an invariant over every trace of frames, updates and address losses |
| `EtpPeer.StoreInBounds` | isobus/src/can_extended_transport_protocol.cpp:435-452 | The write position is seven times the number of accepted packets, and inside the buffer whenever there is a buffer |
| `EtpPeer.RemainingNeverWraps` | isobus/src/can_extended_transport_protocol.cpp:47-51 | While data is expected, the 8-bit count of packets left in the window is the true difference and positive |
| `EtpPeer.GrantIsServedIff` | isobus/src/can_extended_transport_protocol.cpp:210-218 | The sender never rewinds: a granted window starts at the packet asked for exactly when that is the one behind the last sent |
| `EtpFrames.RoundTrip` | isobus/src/can_extended_transport_protocol.cpp:335-407 | Every control and data frame a session sends is decoded to the same arguments |
| `EtpFrames.EncodeInjective` | isobus/src/can_extended_transport_protocol.cpp:804-920 | Two frames have the same bytes only if they are the same frame |
| `EtpFrames.IgnoredIff` | isobus/src/can_extended_transport_protocol.cpp:335-407 | Exactly the frames of another length and control frames of another kind are ignored |
| `EtpFrames.ControlBytes` | isobus/src/can_extended_transport_protocol.cpp:804-920 | The kind, the parameter group and the unused bytes of every control frame |
| `EtpFrames.SizeLimitIsTight` | isobus/src/can_extended_transport_protocol.cpp:113-121 | 117440505 bytes is exactly the longest message whose packet numbers fit 24 bits |
| `EtpSessions.EtpSession.SendDataTransferPackets` | isobus/src/can_extended_transport_protocol.cpp:603-654 | The sending loop sends the next packets of the window until one is refused, and leaves the state the specification says |
| `EtpSessions.EtpSession.FillBuffer` | isobus/src/can_extended_transport_protocol.cpp:617-632 | The buffer filled byte by byte is the next data frame, padded with 0xFF, offsets computed in 32 bits |
| `EtpSessions.EtpSession.SendRequestToSendFrame` | isobus/src/can_extended_transport_protocol.cpp:804-821 | Sends the request; the state moves on only if it was not refused |
| `EtpSessions.EtpSession.SendClearToSendFrame` | isobus/src/can_extended_transport_protocol.cpp:823-853 | Grants the smaller of limit and remaining packets; acknowledges and moves on only if not refused |
| `EtpSessions.EtpSession.SendDataPacketOffsetFrame` | isobus/src/can_extended_transport_protocol.cpp:855-897 | Announces the smallest of 255, the remaining packets, the grant and the configured size |
| `EtpSessions.EtpSession.UpdateStateMachine` | isobus/src/can_extended_transport_protocol.cpp:656-745 | One update in every state, timeouts included: the method does what the function does about which `EtpTimeouts` and `EtpConduct` prove their laws |
| `EtpSessions.EtpSession.ProcessClearToSend` | isobus/src/can_extended_transport_protocol.cpp:182-226 | A grant is taken in the right state only; every other case aborts with its reason |
| `EtpSessions.EtpSession.ProcessDataPacketOffset` | isobus/src/can_extended_transport_protocol.cpp:228-278 | An announcement must match the grant and the acknowledged packet; every other case aborts with its reason |
| `EtpSessions.EtpSession.ProcessEndOfSessionAcknowledgement` | isobus/src/can_extended_transport_protocol.cpp:280-305 | Success only while waiting for it and with the right size |
| `Segmentation.CopyPayload` | isobus/src/can_extended_transport_protocol.cpp:446-470 | Both ways of copying, byte by byte and at once, store the payload at its place and never past the end |
| `EtpSessions.EtpSession.ProcessDataTransfer` | isobus/src/can_extended_transport_protocol.cpp:409-508 | One data frame: stored, acknowledged, delivered or aborted as specified |
| `EtpManagers.EtpManager.CloseSession` | isobus/src/can_extended_transport_protocol.cpp:793-802 | Erases exactly this session and tells the owner of a transmit session once |
| `EtpManagers.EtpManager.TransmitMessage` | isobus/src/can_extended_transport_protocol.cpp:535-578 | Accepts exactly the lengths 1786..117440505 with valid addresses and no session of the pair |
| `EtpManagers.EtpManager.ProcessRequestToSend` | isobus/src/can_extended_transport_protocol.cpp:132-180 | Refuses when the table is full; otherwise replaces the session of the pair and no other. The frames sent are those of the specification, the clear to send using the answers an abort leaves, and the owner of a replaced transmit session is told it failed |
| `EtpManagers.AbortOldIff` | isobus/src/can_extended_transport_protocol.cpp:146-161 | A session is aborted before it is replaced exactly when it carries another parameter group, and the abort takes the first answer |
| `EtpManagers.EtpManager.ProcessClearToSend` | isobus/src/can_extended_transport_protocol.cpp:182-226 | Only the sender session of the pair changes, and it stays or leaves as specified |
| `EtpManagers.EtpManager.ProcessDataPacketOffset` | isobus/src/can_extended_transport_protocol.cpp:228-278 | Only the receive session of the pair changes |
| `EtpManagers.EtpManager.ProcessEndOfSessionAcknowledgement` | isobus/src/can_extended_transport_protocol.cpp:280-305 | Only the sender session of the pair changes, and its owner is told the right result |
| `EtpManagers.EtpManager.ProcessDataTransfer` | isobus/src/can_extended_transport_protocol.cpp:409-508 | Only the receive session of the pair changes |
| `EtpManagers.EtpManager.ProcessAbort` | isobus/src/can_extended_transport_protocol.cpp:307-333 | Closes exactly the sessions of either direction that carry the group; owners are told of failures only |
| `EtpManagers.EtpManager.UpdateSessions` | isobus/src/can_extended_transport_protocol.cpp:580-601 | Although sessions are erased while the table is walked, every session is updated exactly once, those that stay keep their order, all frames go out in the order of the walk, and the owner of each transmit session that ended is told its own result; the table stays valid: distinct pairs, receivers within the limit, each started transmit session either active or completed once |
| `TpNetwork.Safety` | isobus/src/can_transport_protocol.cpp:133-262 | For every length 9..1785, in connection mode and broadcast, over a network that loses, duplicates and reorders frames at will, every delivered message is the sender's |
| `TpNetwork.Agreement` | isobus/src/can_transport_protocol.cpp:310-333 | A sender with a destination that completes with success has had its message delivered, on the same network |
| `TpNetwork.RunKeeps` | isobus/src/can_transport_protocol.cpp:479-584 | The invariant behind both over every run: every frame in flight is honest, the receiver holds a correct prefix |
| `TpNetwork.SendsHonest` | isobus/src/can_transport_protocol.cpp:692-755 | Whatever window the sender believes in, the bytes of a data frame are those its sequence number stands for |
| `TpProgress.CompletesIff` | isobus/src/can_transport_protocol.cpp:692-865 | Take any run of a connection in which frames arrive once and in order, without timeouts and a full table, with any refusals: it can be continued to delivery and sender success if and only if no reply to the last packet of a window or of the message was refused in it |
| `TpProgress.RunsAreBounded` | isobus/src/can_transport_protocol.cpp:692-865 | Such a run has at most 5 steps per packet plus 5 that change anything, refusals elsewhere included |
| `TpProgress.RefusedReplyStalls` | isobus/src/can_transport_protocol.cpp:569-572 | If the reply to the last packet of a window or of the message is refused, only a timeout can change anything afterwards |
| `TpProgress.OneRefusalStalls` | isobus/src/can_transport_protocol.cpp:964-1000 | For every message, window size and configuration there is a run from the start in which one refused reply, the one to the last packet of the first window, stalls the connection |
| `TpBroadcast.Completes` | isobus/src/can_transport_protocol.cpp:692-755 | From every point of a broadcast whose frames arrive once and in order, without timeouts and a full table, whatever is refused and however the sender pauses, the message can still be delivered and the sender finish |
| `TpBroadcast.RunsAreBounded` | isobus/src/can_transport_protocol.cpp:692-755 | Such a broadcast has at most 2 steps per packet plus 2 that change anything |
| `TpTimeouts.NobodyWaitsForEver` | isobus/src/can_transport_protocol.cpp:757-865 | After any run over a network that loses, repeats and reorders, a sender that hears nothing more has ended within 257 updates, a broadcast with all frames sent, a connection with a failure its partner is told of; a receiver is gone within two |
| `TpTimeouts.StalledEnds` | isobus/src/can_transport_protocol.cpp:757-865 | From every stalled state of every run the timeouts of both sides end the connection |
| `TpTimeouts.SenderTimesOut` | isobus/src/can_transport_protocol.cpp:783-865 | A waiting sender does nothing before its timeout; the timeout ends it with a failure and one abort, none when it was granted no packets yet |
| `TpTimeouts.ReceiverTimesOut` | isobus/src/can_transport_protocol.cpp:817-865 | The same for a receiver; a broadcast receiver ends without an abort |
| `TpTimeouts.RequestTimesOut` | isobus/src/can_transport_protocol.cpp:757-800 | The first frame is the announcement or the request of this message; a request that is never answered ends without an abort |
| `TpTimeouts.OwnerIsTold` | isobus/src/can_transport_protocol.cpp:671-690 | A session of the table that waited too long or lost an address leaves the table, and the owner of a transmit session is told of the failure |
| `TpTimeouts.OthersStay` | isobus/src/can_transport_protocol.cpp:671-690 | A session with valid addresses whose timeout is not over stays in the table, but for a broadcast that ends; a broadcast needs no valid destination |
| `TpConduct.GrantTakenIff` | isobus/src/can_transport_protocol.cpp:264-308 | A grant is taken exactly when it is for this message, within it and awaited; each other case has its abort |
| `TpConduct.PacketTakenIff` | isobus/src/can_transport_protocol.cpp:479-584 | A packet is taken exactly when it is awaited, the next one and has a place in the buffer; each other case has its abort, none for a broadcast |
| `TpConduct.AcknowledgementIff` | isobus/src/can_transport_protocol.cpp:310-333 | An awaited acknowledgement is a success; others are ignored |
| `TpConduct.GrantIsLimited` | isobus/src/can_transport_protocol.cpp:964-1000 | A grant asks for the next packet and never exceeds the session's limit or the message; 16 applies only below a limit that is not reached |
| `TpConduct.UpdateIsLimited` | isobus/src/can_transport_protocol.cpp:692-755 | One update sends one packet of a broadcast, or what the window and the limit per update allow, in sequence |
| `TpConduct.WaitsIff` | isobus/src/can_transport_protocol.cpp:735-754 | After sending, a broadcast is over exactly at the end of the message; a connection waits for the acknowledgement there and for a grant at the end of a window before |
| `TpConduct.GrantsAreLimited` | isobus/src/can_transport_protocol.cpp:964-1000 | In every run of a connection no grant exceeds what the configurations of both sides allow |
| `TpPeer.ReceiverIsExact` | isobus/src/can_transport_protocol.cpp:479-584 | Against a peer that sends anything, a delivered buffer is the accepted packets in order with zeros behind them, as many packets as the 8-bit count of the size says |
| `TpPeer.FilledIffWithinLimit` | isobus/src/can_transport_protocol.cpp:192-262 | A delivered buffer was filled to its end exactly when its size is at most 1785, which a request to send does not check |
| `TpPeer.UnfilledDelivery` | isobus/src/can_transport_protocol.cpp:192-262 | A concrete request for 1793 bytes that one packet completes |
| `TpPeer.BroadcastsAreNeverAnswered` | isobus/src/can_transport_protocol.cpp:569-572 | A broadcast receive session never sends anything, and never delivers more than 1785 bytes |
| `TpPeer.GrantIsServedIff` | isobus/src/can_transport_protocol.cpp:292-300 | The sender never rewinds: the next packet sent is the one asked for exactly when that is the one behind the last sent |
| `TpFrames.RoundTrip` | isobus/src/can_transport_protocol.cpp:369-477 | Every frame a session sends is decoded to the same arguments |
| `TpFrames.EncodeInjective` | isobus/src/can_transport_protocol.cpp:926-1024 | Two frames have the same bytes and addressing only if they are the same frame |
| `TpFrames.IgnoredIff` | isobus/src/can_transport_protocol.cpp:369-477 | Exactly the frames of another length or kind are ignored, and control frames that are addressed to everybody without being an announcement, or the other way round |
| `TpFrames.ControlBytes` | isobus/src/can_transport_protocol.cpp:926-1024 | The kind, the parameter group and the unused bytes of every control frame |
| `TpSessions.TpSession.FillBuffer` | isobus/src/can_transport_protocol.cpp:708-724 | The buffer filled byte by byte is the next data frame |
| `TpSessions.TpSession.SendDataTransferPackets` | isobus/src/can_transport_protocol.cpp:692-755 | One packet of a broadcast, or the rest of the 8-bit window up to the limit per update, until one is refused |
| `TpSessions.TpSession.SendClearToSendFrame` | isobus/src/can_transport_protocol.cpp:964-1000 | The grant, limited by the request or by 16; counters change only if it was not refused |
| `TpSessions.TpSession.UpdateStateMachine` | isobus/src/can_transport_protocol.cpp:757-865 | One update in every state, timeouts and the pause between broadcast frames included |
| `TpSessions.TpSession.ProcessClearToSend` | isobus/src/can_transport_protocol.cpp:264-308 | A grant is taken in the right state only; every other case aborts with its reason |
| `TpSessions.TpSession.ProcessEndOfSessionAcknowledgement` | isobus/src/can_transport_protocol.cpp:310-333 | Success only while waiting for it |
| `TpSessions.TpSession.ProcessDataTransfer` | isobus/src/can_transport_protocol.cpp:479-584 | One data frame: stored, delivered, granted more or aborted as specified |
| `TpManagers.TpManager.TransmitMessage` | isobus/src/can_transport_protocol.cpp:611-669 | Accepts exactly the lengths 9..1785 with a valid source and no session of the pair |
| `TpManagers.TpManager.ProcessBroadcastAnnounce` | isobus/src/can_transport_protocol.cpp:133-190 | Ignored when the table is full or the size is over the limit; otherwise the broadcast session of the source is replaced or, for a wrong packet count, closed |
| `TpManagers.TpManager.ProcessRequestToSend` | isobus/src/can_transport_protocol.cpp:192-262 | Refuses when the table is full; otherwise replaces the session of the pair, or only closes it when the number of packets is wrong. The frames sent are those of the specification, in order, using the answers an abort leaves, and the owner of a replaced transmit session is told it failed |
| `TpManagers.AbortOldIff` | isobus/src/can_transport_protocol.cpp:207-222 | A session is aborted before it is replaced exactly when it carries another parameter group, and the abort takes the first answer |
| `TpManagers.TpManager.ProcessClearToSend` | isobus/src/can_transport_protocol.cpp:264-308 | Only the sender session of the pair changes |
| `TpManagers.TpManager.ProcessEndOfSessionAcknowledgement` | isobus/src/can_transport_protocol.cpp:310-333 | Only the sender session of the pair changes, and its owner is told the result |
| `TpManagers.TpManager.ProcessDataTransfer` | isobus/src/can_transport_protocol.cpp:479-584 | Only the receive session of the pair changes |
| `TpManagers.TpManager.ProcessAbort` | isobus/src/can_transport_protocol.cpp:335-367 | Closes exactly the sessions of either direction that carry the group; owners are told of failures only |
| `TpManagers.TpManager.CloseSession` | isobus/src/can_transport_protocol.cpp:913-924 | Erases exactly this session and tells the owner of a transmit session once |
| `TpManagers.TpManager.UpdateSessions` | isobus/src/can_transport_protocol.cpp:671-690 | The same for a walk over a copy of the table: one update each, order kept, frames in order, each owner told its own result, table valid |
| `SessionTable.BackwardsAsDecided` | isobus/src/can_extended_transport_protocol.cpp:580-601 | What the walk from the end does is what was decided of the sessions one by one: the ones to stay are kept and no others, the ones to be told are told their result and no others |
| `SessionTable.ForwardsAsDecided` | isobus/src/can_transport_protocol.cpp:671-690 | The same for the walk from the beginning |
| `SessionTable.ForwardsSends` | isobus/src/can_transport_protocol.cpp:671-690 | Frames go out in the order in which the walk meets the sessions |
| `SessionTable.BackwardsSends` | isobus/src/can_extended_transport_protocol.cpp:580-601 | The same for the walk from the end |
| `SessionTable.SameTable` | isobus/src/can_extended_transport_protocol.cpp:580-601 | Walking from the end leaves the same table as walking from the beginning would |
| `SessionTable.ForwardsKeepsOrder` | isobus/src/can_transport_protocol.cpp:671-690 | The sessions that stay keep their order |
| `McpTransmit.FirstInFirstOut` | hardware_integration/src/mcp2515_can_interface.cpp:302-419 | For every interleaving of writes with transmissions, arbitration losses and failed register accesses, frames leave in the order in which they were accepted, and at most three wait |
| `McpTransmit.RefusedOnlyWhenFull` | hardware_integration/src/mcp2515_can_interface.cpp:365-419 | While transactions succeed a write is refused only if its buffer was still pending at the hundredth look |
| `McpTransmit.AcceptedIff` | hardware_integration/src/mcp2515_can_interface.cpp:365-419 | While SPI transactions succeed a frame is accepted exactly when its buffer is free at one of the first hundred looks |
| `McpTransmit.RaisedIff` | hardware_integration/src/mcp2515_can_interface.cpp:384-404 | The other two buffers are raised exactly when one of them waits and the priority cannot fall any further |
| `McpTransmit.WrittenIff` | hardware_integration/src/mcp2515_can_interface.cpp:302-363 | A buffer that is still pending is left alone; any other is filled exactly when the accesses succeed |
| `McpTransmit.WritingKeeps` | hardware_integration/src/mcp2515_can_interface.cpp:365-419 | Sent frames followed by waiting ones grow by exactly the accepted frame, across the rotation and the priority wrap |
| `McpTransmit.RaiseKeeps` | hardware_integration/src/mcp2515_can_interface.cpp:398-403 | Raising the other two buffers in this order never changes which frame is oldest, whatever is sent in between |
| `McpTransmit.McpDriver.WriteBuffer` | hardware_integration/src/mcp2515_can_interface.cpp:302-363 | Nothing is written to a pending buffer; a failed access leaves it unrequested |
| `McpTransmit.McpDriver.TryOnce` | hardware_integration/src/mcp2515_can_interface.cpp:372-411 | One pass of the loop |
| `McpTransmit.McpDriver.WriteFrame` | hardware_integration/src/mcp2515_can_interface.cpp:365-419 | The whole loop: what was sent and what waits is what was accepted, in its order |
| `McpReceive.InOrderIff` | hardware_integration/src/mcp2515_can_interface.cpp:268-300 | Frames are returned in the order of arrival, now and next, exactly when no two frames ever arrived between emptying buffer 0 and the status read behind it with buffer 1 empty |
| `McpReceive.FirstInFirstOut` | hardware_integration/src/mcp2515_can_interface.cpp:268-300 | In runs without such a pair of arrivals the numbers returned are 0, 1, 2, ... |
| `McpReceive.OvertakenIsReordered` | hardware_integration/src/mcp2515_can_interface.cpp:281-286 | After such a pair the order is wrong at the next poll |
| `McpReceive.BurstIsReordered` | hardware_integration/src/mcp2515_can_interface.cpp:281-286 | A concrete burst of three frames is returned as first, third, second |
| `McpReceive.EveryFrameOnce` | hardware_integration/src/mcp2515_can_interface.cpp:268-300 | In every run each stored frame is returned at most once and is returned or still in a buffer |
| `McpReceive.OnPollConserves` | hardware_integration/src/mcp2515_can_interface.cpp:268-300 | A poll that finds a full buffer returns a frame: the driver never waits for the empty one |
| `McpReceive.McpReceiver.PollOnce` | hardware_integration/src/mcp2515_can_interface.cpp:274-296 | One pass of the loop |
| `McpReceive.McpReceiver.ReadFrame` | hardware_integration/src/mcp2515_can_interface.cpp:268-300 | From an ordered state a call returns the oldest frame |
| `McpRegisters.RoundTripIff` | hardware_integration/src/mcp2515_can_interface.cpp:229-265 | Reading back what was written gives the same frame exactly when it is extended or the object read into was not marked extended before |
| `AddressNetwork.AddressesAreDistinct` | isobus/src/can_network_manager.cpp:773-872 | On a reliable bus of nodes with distinct NAMEs that answer a claim before the next one, all held addresses differ whenever no node has a claim to repeat |
| `AddressNetwork.ClashesAreAnswered` | isobus/src/can_network_manager.cpp:641-672 | In every reachable state two nodes share an address only while the one that had it first is about to claim it again |
| `AddressNetwork.ClashIsResolved` | isobus/src/can_network_manager.cpp:799-822 | A clash is over after one or two answers; the node that claimed last keeps the address only with the smaller NAME |
| `AddressNetwork.RunKeeps` | isobus/src/can_internal_control_function.cpp:126-293 | The invariant over all runs, offline devices included |
| `AddressClaim.KeepsIff` | isobus/src/can_network_manager.cpp:774-839 | A node keeps its address against another NAME exactly when it is not listed as inactive and, if it is in its own table, it has the smaller NAME and has finished claiming |
| `AddressClaim.RequestedNodeYields` | isobus/src/can_network_manager.cpp:799-801 | A node that was asked for its claim gives its address up to any NAME before it answers, then repeats its claim for the null address, and counts as having claimed without an address from then on |
| `AddressClaim.EnteredOutsideIff` | isobus/src/can_network_manager.cpp:641-672 | A node is entered at the null address, for which the table has no place, exactly when it repeats a claim but has lost its address meanwhile |
| `AddressClaim.ListedNodeYields` | isobus/src/can_network_manager.cpp:834-839 | A concrete history after which a node loses its address to a larger NAME because it lists itself as inactive |
| `AddressClaim.OnClaimEffect` | isobus/src/can_network_manager.cpp:773-832 | A claim of another address changes nothing about the node; a claim of its own takes it or makes the node repeat its claim |
| `AddressClaim.SearchFindsLowest` | isobus/src/can_internal_control_function.cpp:219-247 | The arbitrary search takes the lowest free address of the range and fails only if there is none |
| `AddressChoice.ChoiceIff` | isobus/src/can_internal_control_function.cpp:153-247 | After the contention period a node claims its preferred address if and only if that is free or recorded for a larger NAME; otherwise the lowest free address of its range if it may and there is one; otherwise it announces that it cannot |
| `AddressChoice.ClaimsComeLast` | isobus/src/can_internal_control_function.cpp:126-293 | In every run a node claims, or gives up, only after it has asked all others for their claims and has waited |
| `AddressChoice.FirstClaim` | isobus/src/can_internal_control_function.cpp:126-247 | On an accepting bus a node has claimed or given up after five updates |
| `AddressChoice.NothingBeforeTime` | isobus/src/can_internal_control_function.cpp:136-157 | A node does nothing before its delay, or the time others have to answer, is over, and moves on when it is |
| `AddressChoice.RefusalIsRepeated` | isobus/src/can_internal_control_function.cpp:145-290 | A refused request or repeated claim is tried again, a refused claim starts over |
| `AddressChoice.ClaimIsKnown` | isobus/src/can_network_manager.cpp:773-872 | After a claim its sender is known at that address, and exactly the other recorded nodes that were known there are known nowhere |
| `AddressChoice.ClaimIsEntered` | isobus/src/can_network_manager.cpp:773-872 | Where the claimant is entered in the table: new, moving, or coming back |
| `AddressChoice.OwnClaimIsEntered` | isobus/src/can_network_manager.cpp:641-672 | A node that claims is entered at its new address and nowhere else, and only the one recorded there is forgotten |
| `AddressChoice.PruneIff` | isobus/src/can_network_manager.cpp:1120-1160 | A node that goes offline is put aside and forgotten, and nobody else is |
| `AddressClaim.UpdateEffect` | isobus/src/can_internal_control_function.cpp:126-293 | A node that claims holds the address, is in its own table once, and has finished claiming; otherwise nothing is gained or lost |
| `AddressManagers.AddressManager.ContendInTable` | isobus/src/can_network_manager.cpp:774-832 | The loop over the table |
| `AddressManagers.AddressManager.EvictFromInactive` | isobus/src/can_network_manager.cpp:834-839 | The loop over the inactive ones |
| `AddressManagers.AddressManager.EnterClaimant` | isobus/src/can_network_manager.cpp:841-872 | How the claimant enters the table |
| `AddressManagers.AddressManager.RefreshSlot` | isobus/src/can_network_manager.cpp:562-612 | What the queued claim does to its slot |
| `AddressManagers.AddressManager.ProcessClaim` | isobus/src/can_network_manager.cpp:712-874 | Everything one claim does to the node |
| `AddressManagers.AddressManager.FindAddress` | isobus/src/can_internal_control_function.cpp:219-247 | The search loop |
| `AddressManagers.AddressManager.FinishClaim` | isobus/src/can_network_manager.cpp:646-670 | A successful claim moves the node to its place in the table and evicts whoever is recorded there |
| `AddressManagers.AddressManager.UpdateAddressClaiming` | isobus/src/can_internal_control_function.cpp:126-293 | One update of the claiming state machine, as the function does about which `AddressChoice` proves which address is claimed |
| `Ddop.RoundTripIff` | isobus/src/isobus_device_descriptor_object_pool.cpp:382-800 | Writing a pool and reading it into an empty one gives the same objects in the same order exactly when the pool is not empty, identifiers are distinct, every object is within the parser's limits and the device belongs to the client |
| `Ddop.WritePoolInjective` | isobus/src/isobus_task_controller_client_objects.cpp:79-149 | Two pools within the limits that are written alike are alike |
| `Ddop.LongDesignatorIsLost` | isobus/src/isobus_device_descriptor_object_pool.cpp:619-628 | A 128-byte designator is accepted when added but does not survive writing and reading |
| `Ddop.ParseOne` | isobus/src/isobus_device_descriptor_object_pool.cpp:390-792 | Each pass of the parser on any input stops or strictly shrinks what is left |
| `DdopRecords.PlacesAgree` | isobus/src/isobus_device_descriptor_object_pool.cpp:383-770 | Looking for fields at places computed from the length bytes, with zeros for missing ones, refuses the same records, gives the same objects and consumes as many bytes as reading field after field |
| `DdopRecords.ReadsInBoundsIff` | isobus/src/isobus_device_descriptor_object_pool.cpp:538-569 | One pass of the parser looks only at bytes that are there, except for a device element record of 4 or 5 bytes, whose type is read at index 5 |
| `DdopRecords.AcceptedInBounds` | isobus/src/isobus_device_descriptor_object_pool.cpp:383-770 | Bytes that are accepted as a pool were only read inside |
| `Ddop.ParseKeeps` | isobus/src/isobus_device_descriptor_object_pool.cpp:382-800 | Whatever bytes are parsed, the pool holds only objects that can be written and read again, with distinct identifiers |
| `Ddop.ObjectBack` | isobus/src/isobus_task_controller_client_objects.cpp:245-277 | Every object within the limits is read back from its bytes, followed by anything |
| `Ddop.FoundIsTheOne` | isobus/src/isobus_device_descriptor_object_pool.cpp:1018-1031 | With distinct identifiers the first object found is the only one |
| `DdopChanges.AddIff` | isobus/src/isobus_device_descriptor_object_pool.cpp:30-372 | An object is added exactly when its number is free and allowed, or it is the first device; it goes to the end with every field as given, but for texts cut to their limits |
| `DdopChanges.LoadReplaces` | isobus/src/isobus_device_descriptor_object_pool.cpp:382-796 | Loading written objects into any pool leaves for each number the last object with it, or else what the pool had before, and nothing else |
| `DdopChanges.WrongNameReplaces` | isobus/src/isobus_device_descriptor_object_pool.cpp:484-517 | A device that names another client makes the loading fail, but has replaced the device of the pool by then |
| `DdopChanges.ShortLabelIsFilled` | isobus/src/isobus_task_controller_client_objects.cpp:118-128 | A structure label of fewer than seven bytes comes back filled up with spaces |
| `DdopChanges.ResolvedIff` | isobus/src/isobus_device_descriptor_object_pool.cpp:1094-1245 | With distinct identifiers a pool resolves exactly when every parent, child and named presentation exists with an allowed type |
| `DdopPools.RunsAreSound` | isobus/src/isobus_device_descriptor_object_pool.cpp:30-375 | After every sequence of adds, removals and loads identifiers are distinct and only the device has number 0 |
| `DdopPools.DeviceDescriptorObjectPool.CheckObjectIdUnique` | isobus/src/isobus_device_descriptor_object_pool.cpp:1247-1267 | True exactly for an unused identifier other than 0 and 0xFFFF |
| `DdopPools.DeviceDescriptorObjectPool.AddTo` | isobus/src/isobus_device_descriptor_object_pool.cpp:30-346 | What each add does to the pool, designators cut to the limit of the level |
| `DdopPools.DeviceDescriptorObjectPool.RemoveWhere` | isobus/src/isobus_device_descriptor_object_pool.cpp:358-375 | Erasing while iterating leaves the other objects in order; true exactly when something was erased |
| `DdopPools.DeviceDescriptorObjectPool.DeserializeBinaryObjectPool` | isobus/src/isobus_device_descriptor_object_pool.cpp:382-800 | The parsing loop, and the pool stays sound |
| `DdopPools.DeviceDescriptorObjectPool.ResolveParentIdsToObjects` | isobus/src/isobus_device_descriptor_object_pool.cpp:1094-1245 | True exactly when every parent, child and presentation referred to exists and has an allowed type |
| `DdopPools.DeviceDescriptorObjectPool.GenerateBinaryObjectPool` | isobus/src/isobus_device_descriptor_object_pool.cpp:802-838 | Succeeds exactly when all references resolve, and then produces the whole pool |
| `Geometry.SectionsConserved` | isobus/src/isobus_device_descriptor_object_pool_helpers.cpp:44-219 | For a pool with distinct identifiers the reported sections are the section elements under a reported sub boom or under a reported boom without sub booms, each exactly once |
| `Geometry.LeavesDifferent` | isobus/src/isobus_device_descriptor_object_pool_helpers.cpp:128-162 | No element is reported twice as a place that has sections |
| `GeometryShape.BoomsIff` | isobus/src/isobus_device_descriptor_object_pool_helpers.cpp:44-178 | Booms are exactly the functions under the root, or the root when there is none, each once and in pool order; each has exactly the sub booms and sections that are under it |
| `GeometryShape.SomeBoom` | isobus/src/isobus_device_descriptor_object_pool_helpers.cpp:95-99 | A pool with a device and an element under it has at least one boom |
| `GeometryShape.SectionsIff` | isobus/src/isobus_device_descriptor_object_pool_helpers.cpp:44-283 | An element is reported as a section, once, exactly when it is a section under a sub boom or under a boom without sub booms; said of the pool alone |
| `Geometry.ParseSubBoom` | isobus/src/isobus_device_descriptor_object_pool_helpers.cpp:264-283 | The loop over the sections of a sub boom |
| `Geometry.ParseElement` | isobus/src/isobus_device_descriptor_object_pool_helpers.cpp:128-178 | The loops over sub booms and sections of a boom |
| `Geometry.GetImplementGeometry` | isobus/src/isobus_device_descriptor_object_pool_helpers.cpp:44-126 | The search for the device, its root and the functions under it, with the root itself as boom if there is none; `GeometryShape.BoomsIff` says what this finds |
| `IopPool.GenerateValidates` | generate_iop.py:509-541 | For every list of supported objects with fewer than 256 children and strings under 65536 bytes, the generator's own check passes |
| `IopPool.ValidatorAgrees` | generate_iop.py:449-507 | On emitted bytes the cursor stops at the beginning of every object and nowhere else, and the count is right |
| `IopPool.EmittedOnce` | generate_iop.py:526-539 | Every object is emitted exactly once |
| `IopPool.TooManyKeys` | generate_iop.py:368-376 | With 256 keys or more the check fails |
| `IopPool.OneObjectIff` | generate_iop.py:449-507 | The check of one object passes exactly when its counts can be expressed; a wrapped count leaves bytes that are another object or an error |
| `IopReader.ReadBack` | generate_iop.py:343-447 | A reader of the records at fixed places gives back every field of every object whose counts can be expressed, whatever follows it |
| `IopReader.GeneratedIsRead` | generate_iop.py:509-541 | Reading the whole output gives every object of the list, grouped by type in the order of the tags, those of one type in the order of the file |
| `IopReader.EmittedAlikeAgree` | generate_iop.py:509-541 | Lists with the same output have the same objects, in the same order for each type |
| `IopPool.IopGenerator.ValidateSerializedPool` | generate_iop.py:449-507 | The validating loop |
| `IopPool.IopGenerator.Generate` | generate_iop.py:526-541 | The two emitting loops; `IopReader.GeneratedIsRead` says what can be read from the result |
| `ChunkCache.CANMessageDataCallback.GetByte` | isobus/src/can_message_data.cpp:100-114 | For every access order and chunk size of at least 1 the byte returned is the source's, or 0 past the end |
| `ChunkCache.WholePass` | isobus/src/can_message_data.cpp:107-112 | A sequential pass calls the source once per chunk, ceil(size / chunk) times, with chunks that tile the message |
| `ChunkCache.SequentialPass` | isobus/src/can_message_data.cpp:100-114 | The same for every prefix of the message |
| `TroubleCodes.CountsAreActivations` | isobus/src/isobus_diagnostic_protocol.cpp:236-300 | In every run of set, clear and DM22 operations no code is listed twice, and its count is the number of its activations since it was last erased, modulo 256 |
| `TroubleBook.ListsAgree` | isobus/src/isobus_diagnostic_protocol.cpp:205-300 | In every run each list has exactly the codes that the operations alone put there, with their counts, in the order in which they came |
| `TroubleBook.PlacesIff` | isobus/src/isobus_diagnostic_protocol.cpp:205-300 | A code is active exactly when it was set active and not made inactive since, inactive exactly when it was made inactive and neither set active nor erased since, and otherwise on neither list |
| `TroubleBook.ResultIff` | isobus/src/isobus_diagnostic_protocol.cpp:236-300 | Setting active fails exactly for active codes, setting inactive exactly for inactive ones |
| `TroubleCodes.RepliesAreRight` | isobus/src/isobus_diagnostic_protocol.cpp:1019-1111 | A DM22 request is acknowledged exactly when its list has such a code; otherwise the reason tells whether the other list has one |
| `TroubleCodes.ClearsAllIffOne` | isobus/src/isobus_diagnostic_protocol.cpp:1025-1039 | An acknowledged clear request leaves no such active code exactly when there was one only: codes that differ in their lamp are cleared one at a time |
| `TroubleCodes.DiagnosticProtocol.SetActive` | isobus/src/isobus_diagnostic_protocol.cpp:236-300 | Setting a code active or inactive, as the operation about which `TroubleBook` proves where every code is |
| `TroubleCodes.DiagnosticProtocol.ClearActive` | isobus/src/isobus_diagnostic_protocol.cpp:205-215 | All active codes become inactive ones |
| `TroubleCodes.DiagnosticProtocol.ClearInactive` | isobus/src/isobus_diagnostic_protocol.cpp:217-221 | All inactive codes are erased |
| `TroubleCodes.DiagnosticProtocol.ProcessRequest` | isobus/src/isobus_diagnostic_protocol.cpp:1002-1117 | The two DM22 requests, with one queued reply each |

## Left out

- Clocks: a timeout is a choice of each update, so every timing is covered, but nothing is said about milliseconds. The choice which of two timeouts applies is not modelled.
- Several sessions in a row between the same two nodes on a lossy bus, whose stale control frames may cross sessions.
- Callbacks that re-enter the stack, threads and locks: one frame or one update is one step.
- Sessions between two internal control functions of one manager.
- Address validity of control functions is a choice at each update.
- The extended protocol over channels that reorder or duplicate: its data frames carry no window number, so the claims are for channels that keep their order.
- McpTransmit.FirstInFirstOut: status reads and the two priority raises succeed; the accesses that fill a buffer may fail, and a failed one changes nothing.
- McpReceive.InOrderIff: SPI transactions succeed and frames have at most 8 data bytes.
- Opening, resetting and configuring the MCP2515, remote frames and interrupts.
- AddressNetwork.AddressesAreDistinct: one internal control function on each node, and each claim is processed and answered before the next; with several claims before one update the tables give no such guarantee. Partners, commanded addresses and frames that say an address cannot be claimed are not modelled, so neither is what becomes of the table entry of a node that claims the null address, which `AddressClaim.EnteredOutsideIff` shows to lie outside of the table.
- Which devices go offline after a request for claims is a choice at each step; the flags and the timeout that decide it are not modelled.
- Ddop.RoundTripIff: scale factors are four opaque bytes and NAMEs eight; the identifier of an object does not change after it was added.
- XML generation from a pool, and the data dictionary.
- Geometry.SectionsConserved: offsets, widths, rates and bins of booms and sections are not modelled; pools have fewer than 65536 objects.
- IopPool.GenerateValidates: reading the XML file, resolving names and translating attribute values are not modelled; an object is the bytes its attributes stand for.
- Encoding of DM1 and DM2 messages, sending of queued DM22 replies, and all other diagnostic messages.
- The section control bit packing, virtual terminal code, other hardware plugins and examples: easy or user interface.
