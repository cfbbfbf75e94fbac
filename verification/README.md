# A verified model of svpn

svpn is a FortiGate VPN client: a privileged daemon that owns the tunnel, a desktop client that drives
it, and a PPP stack in between. This project models the parts of it whose correctness rests on more than
one function, and proves properties of them in Dafny. `dafny verify dfyconfig.toml` checks everything.

The network, the kernel, the other process and every random or timed choice are adversaries or oracles:
sequences of bytes that may be anything, commands that may fail at any point, schedules in any order.

Code that updates fields is a class whose methods are proved to compute a step function of the old state
(`View()` gives the state as a value); the theorems are then about that function, over whole runs. A
protocol between threads is a state machine whose steps are the critical sections or the single calls of
the source.

| files | what they model |
|---|---|
| `Bytes`, `Packets`, `Frames`, `Tunnels` | the codec stack: options in packets, packets in frames, frames in a stream that may start with an HTTP head |
| `LinkOptions`, `Sessions`, `Replies` | the LCP and IPCP negotiation of RFC 1661 and RFC 1332, one frame at a time |
| `NegotiationSafety`, `NegotiationLiveness` | whole negotiations, against any peer that answers in turn and composed with one that keeps answering |
| `NegotiationReplies` | what is written in whole negotiations with any peer: replies, identifiers, bytes |
| `NegotiationLimits`, `NegotiationOutcomes` | whole negotiations against any peer at all, against one that refuses for ever, and safety and liveness put together |
| `Daemons`, `DaemonProtocol` | connect, disconnect, watch and Shutdown as interleaved critical sections under one lock |
| `Pumps` | Close running against the two pumps of a live connection |
| `DataPlanes` | what the pumps do with each packet, end to end |
| `Connections` | bringing a connection up, and undoing it on any failure |
| `TunAdapters` | the batched tun device as a queue of packets |
| `Controllers`, `ControllerRuns`, `Mailboxes` | the desktop client's actor, its workers and its one-slot channel |
| `Routes`, `NetConfig` | longest-prefix match, and what Apply and Revert do to a routing table |
| `Overlaps` | one connection's Revert and the next one's Apply, command by command on one routing table |
| `Texts`, `AllowLists` | merging a user id into the daemon's environment file |

## Where the code and its comments part

The model follows the code. These are the places where that matters.

- `watch` leaves the Connected state before it closes the lost connection, so the exclusion that holds for
  disconnects does not hold for lost links. `DaemonProtocol.ConnectIsRefusedIff` says exactly when connect
  is held back, `DaemonProtocol.LostConnectionDoesNotHoldBackConnect` exhibits a run,
  `NetConfig.OverlapLosesThePin` and `NetConfig.OverlapCapturesTheGateway` say what such an overlap does to
  the routing table when one follows the other, and
  `DaemonProtocol.ShutdownLeavesNothingBehind` says exactly which connections Shutdown may leave half
  closed.
- The gateway check that a single Apply always passes can fail when another connection's Revert runs beside it,
  and one that has passed need not stay true. `Overlaps.RoutingAtEveryMoment` gives the route of every address
  after every order of the two sides' commands; `Overlaps.CheckCanFailIff` and
  `Overlaps.SuccessCanBeCapturedIff` say exactly when some order makes the check fail, or leaves the gateway in
  the new tunnel after a success, and `Overlaps.PinnedAndYetCapturedIff` when even a pin of the new
  connection's own does not help, because it went over the old one's interface.
- `cancelConnect` stays set in Disconnecting too, until the aborted attempt returns;
  `DaemonProtocol.StateMeansWhatItSays` states the true correspondence.
- `Negotiate` finishes on the IPCP flags alone and does not match acknowledgements to identifiers. With a
  peer that answers only what was asked it keeps its promise (`NegotiationSafety.NegotiationIsSafe`);
  `NegotiationSafety.UnaskedAnswersBreakTheGuarantee` shows it failing without.
  `NegotiationLimits.WhatSuccessMeans` and `NegotiationLimits.IpcpWaitsIffRefusalsWait` say exactly, against
  any peer, when a success comes with LCP open and an address, which addresses it returns, and when IPCP
  waits for LCP.
- Rejected DNS addresses are forgotten but offered again as 0.0.0.0, and only the options refused by the
  current packet are left out of the next LCP request. A peer that refuses for ever, with options that can be
  read and without rejecting the address, keeps the session busy for ever
  (`NegotiationOutcomes.RefusedForEver`), and one that refuses the two LCP options by turns is
  offered each again by turns (`NegotiationOutcomes.AlternatingNeverSettles`); liveness is stated for any
  finite number of refusals.
- The framing writes an empty payload that it will not read back, and a stream cut right after a frame
  header reports a clean end: `Frames.ReadFrameInvertsWriteFrame` and
  `Frames.CutFrameIsUnexpectedExceptAfterHeader` are exact about both.
- The tunnel pump reports a failure to set its deadline without asking whether Close is under way, so that
  one failure can be recorded although the teardown caused it. `Pumps.ClosingIsQuiet` excludes it,
  `Pumps.DeadlineExitRecordsTheTeardown` exhibits it, and `Pumps.TeardownIsRecordedIffArmed` says in exactly
  which states at the cancellation it can happen.
- The gateway is pinned before `applied` is set. If the address is then refused, Revert leaves the pin
  behind: `NetConfig.ApplyThenRevert` gives the exact condition, and
  `NetConfig.VanishedInterfaceIsInvisible` shows that no address is routed differently because of it. A
  Revert whose commands fail cannot be repeated, since `applied` is cleared whatever they did;
  `NetConfig.ApplyThenRevert` also says exactly when the table is restored all the same.
- The error that a snapshot shows is meant to survive until the next action; a poll that finds no daemon while nothing
  is in flight replaces it. `ControllerRuns.WhatIsToldIsShown` says which error is shown.
- `argsValue` trims quotes from the value, so a carried-over flag that ends in one loses it at the next
  install: `AllowLists.MergeIsIdempotent` gives the exact condition. The order of installs never matters.
- Cancelling a connect does not stop a worker that is already past the login, or one whose login completes
  all the same: its messages are ignored (`Controllers.AbandonedActionIsSilent`), its request goes out.
  `ControllerRuns.RunsOnIffGivenUp` says that these are exactly the workers that run on, and
  `ControllerRuns.GivenUpLoginStillConnects` exhibits a run.

## Model

| member | source | states |
|---|---|---|
| Packets.DecodeMeetsLayout | internal/ppp/packet.go:54-92 | Decode accepts exactly the frames laid out as RFC 1661 section 5 says (optional address and control bytes, exact or padded length) and returns the packet they carry |
| Packets.RoundTrip | internal/ppp/packet.go:96-112 | Decode inverts Encode exactly on the packets whose fields fit the wire; a longer one is lost to the 16-bit length |
| Packets.NormalForm | internal/ppp/packet.go:54-112 | re-encoding a decoded frame is an idempotent normal form that drops padding and adds at most the two prefix bytes |
| Packets.BadFrameIsReported | internal/ppp/packet.go:54-93 | exactly which frames are refused, and for what |
| Packets.DecodeOptions | internal/ppp/packet.go:121-144 | the loop computes the recursive parser the codec theorems are about |
| Packets.EncodeOptions | internal/ppp/packet.go:147-160 | the loop computes the concatenation of the rendered options |
| Packets.ParseInvertsRender | internal/ppp/packet.go:121-160 | every list whose values have at most 253 bytes is read back from its encoding |
| Packets.RenderInvertsParse | internal/ppp/packet.go:121-160 | every byte string that parses is the encoding of what it parses to |
| Packets.OptionsRoundTrip | internal/ppp/packet.go:121-160 | both directions at once, as equivalences: the option codec is a bijection |
| Packets.BadOptionIsReported | internal/ppp/packet.go:121-144 | behind any readable options, what the first bad one is refused for |
| Frames.ReadFrame | internal/forti/frame.go:34-64 | the method reads what the stream parser says and leaves what follows |
| Frames.WriteFrame | internal/forti/frame.go:67-85 | a payload over the limit or a failing write puts nothing on the wire, anything else exactly one frame |
| Frames.ReadFrameInvertsWriteFrame | internal/forti/frame.go:34-85 | a payload is returned exactly when the stream starts with its frame; the empty one is written but refused |
| Frames.CutFrameIsUnexpectedExceptAfterHeader | internal/forti/frame.go:34-64 | a frame cut short at any offset fails, as an unexpected end except at offset 0 and right after the header |
| Frames.BadHeaderIsReported | internal/forti/frame.go:43-57 | exactly which headers are refused, and for what |
| Tunnels.ConsumeHTTPResponse | internal/forti/tunnel.go:106-137 | the loop consumes exactly what the head parser says |
| Tunnels.Tunnel.ReadPacket | internal/forti/tunnel.go:140-166 | only the first read looks for a head; each read takes one frame |
| Tunnels.Tunnel.WritePacket | internal/forti/tunnel.go:169-171 | a packet within the limit goes out as one frame, otherwise nothing does |
| Tunnels.AcceptingHeadIsConsumed | internal/forti/tunnel.go:106-137 | a well-formed 200 head is consumed to its last byte and no further |
| Tunnels.HeadIsRead | internal/forti/tunnel.go:106-137 | any head is consumed whole; it accepts if and only if " 200" stands somewhere in its first line, and otherwise that line is the reason |
| Tunnels.CutHeadIsAnError | internal/forti/tunnel.go:107-121 | a head cut short at any point is reported as such |
| Tunnels.FrameIsNotAHead | internal/forti/tunnel.go:106-121 | no frame is taken for a head and no head for a frame |
| Tunnels.StreamRoundTrip | internal/forti/tunnel.go:140-166 | an optional head followed by frames is read back as exactly those payloads in order, whatever follows |
| Tunnels.PacketStreamRoundTrip | internal/forti/tunnel.go:140-171 | the same through the packet codec: packets sent are packets decoded |
| LinkOptions.ReviewLCPOptions | internal/ppp/options.go:51-61 | the appending loop separates the options into the two filtered lists |
| LinkOptions.ReviewConserves | internal/ppp/options.go:51-61 | accepted and rejected together are the request, as a multiset |
| LinkOptions.ReviewSeparates | internal/ppp/options.go:43-61 | exactly the options that are no MRU, character map or magic number are rejected |
| LinkOptions.NothingRejected | internal/ppp/session.go:223-247 | the acknowledged options are the request itself exactly when every option is acceptable |
| Sessions.Session.SendConfigureRequest | internal/ppp/session.go:79-82 | a request takes the next 8-bit identifier and goes out once, or the failed write is reported |
| Sessions.Session.SendLCPConfigureRequest | internal/ppp/session.go:146-162 | the opening LCP request |
| Sessions.Session.AnswerLCPConfigureRequest | internal/ppp/session.go:210-248 | acknowledges or rejects, and opens the remote side only when it acknowledged |
| Sessions.Session.ResendLCPConfigureRequestWithout | internal/ppp/session.go:252-280 | asks again for exactly the options that the refusal does not mention |
| Sessions.Session.HandleLCP | internal/ppp/session.go:164-206 | every LCP code, with its writes, flags and failures |
| Sessions.Session.SendIPCPConfigureRequest | internal/ppp/ipcp.go:16-34 | always offers all three addresses, unknown ones as 0.0.0.0 |
| Sessions.Session.AdoptIPCPOptions | internal/ppp/ipcp.go:147-172 | the loop overwrites addresses in order and stops at the first malformed one |
| Sessions.Session.HandleRejectedIPCPOptions | internal/ppp/ipcp.go:81-96 | rejected DNS addresses are cleared up to a rejected local address, which is fatal |
| Sessions.Session.AnswerIPCPConfigureRequest | internal/ppp/ipcp.go:110-144 | records the peer's address and acknowledges its request; what the acknowledgement carries is in Replies.IpcpRequestIsAcknowledged and NegotiationReplies.RepliesAreInTurn |
| Sessions.Session.HandleIPCP | internal/ppp/ipcp.go:36-107 | every IPCP code, with its writes, flags and failures |
| Sessions.Session.HandleControl | internal/ppp/session.go:288-298 | keepalives and renegotiation once the link is up take the same steps |
| Sessions.Session.Negotiate | internal/ppp/session.go:88-136 | the loop's result, final state and every frame written are those of the pure negotiation, for any incoming frames, any write failing and any moment of cancellation |
| Replies.LcpRequestIsAnsweredOnce | internal/ppp/session.go:210-248 | each decodable LCP request gets one answer: an acknowledgement identical in identifier and option bytes, or a rejection listing in order exactly the options that are no MRU, character map or magic number (RFC 1661 sections 5.2 and 5.4) |
| Replies.IpcpRequestIsAcknowledged | internal/ppp/ipcp.go:110-144 | each IPCP request whose options can be read, with addresses of four bytes, gets one acknowledgement with its own identifier and bytes; any other ends the negotiation unanswered |
| Replies.IPCPOptionsParse | internal/ppp/ipcp.go:16-34 | an IPCP request always parses back to the three addresses |
| Replies.EverySentPacketFits | internal/ppp/session.go:210-280 | whatever a frame provokes decodes back to itself and is at most two bytes longer than the frame it answers, so the framing takes it |
| Replies.BareRequestGrowsByTwo | internal/forti/frame.go:67-70 | the bound is tight: the reply to a bare request in a frame of 0x1fff or 0x2000 bytes is refused |
| NegotiationSafety.AdoptTakesLastValues | internal/ppp/ipcp.go:147-172 | adopting options takes the last value of each address and leaves unmentioned ones alone |
| NegotiationSafety.DropClearsRejected | internal/ppp/ipcp.go:81-96 | exactly the mentioned DNS addresses are cleared |
| NegotiationSafety.RequestedValues | internal/ppp/ipcp.go:16-34 | every IPCP request offers each of the three addresses, as wanted or, when unknown or cleared, as 0.0.0.0 |
| NegotiationSafety.NegotiationIsSafe | internal/ppp/session.go:88-136 | for every run against a peer that answers in turn: at most one request per protocol outstanding, IPCP only after LCP is open, and success means LCP opened both ways and the returned addresses are those of the last request, themselves the latest suggestions with rejected DNS cleared |
| NegotiationSafety.UnaskedAnswersBreakTheGuarantee | internal/ppp/session.go:132-134 | two frames from a peer that answers unasked give success with LCP closed and no address; the exact conditions are the two rows that follow |
| NegotiationReplies.RepliesAreInTurn | internal/ppp/session.go:164-248 | for every run, with no hypothesis on the peer: every reply directly follows what it answers, with its protocol and identifier, and an acknowledgement repeats its options, a rejection lists the unacceptable ones, an echo carries the magic number; and as long as the link takes what is written, everything that calls for an answer gets it before anything else is read |
| NegotiationReplies.RequestsAreNumbered | internal/ppp/session.go:79-82 | for every run, the k-th request of either protocol has identifier k modulo 256 |
| NegotiationReplies.OpeningOnTheWire | internal/ppp/session.go:146-160 | the bytes of the first packet of every run |
| NegotiationReplies.AddressesOnTheWire | internal/ppp/ipcp.go:16-34 | the bytes of every IPCP request |
| NegotiationReplies.AcknowledgementOnTheWire | internal/ppp/session.go:238-243 | an acknowledgement is, byte for byte, the request with the code changed |
| NegotiationReplies.OutcomesAreEarned | internal/ppp/session.go:88-136 | for every run: Negotiate reports that the gateway ended it if and only if it did; a remote flag is set if and only if a request of that protocol has been acknowledged as it stood; no success without that for IPCP |
| NegotiationReplies.FailuresAreNotInvented | internal/ppp/session.go:94-136 | for every run: a cancellation is reported only when the context was found cancelled, a failed read only when nothing more comes, a failed write only when the link takes no more |
| NegotiationLimits.WhatSuccessMeans | internal/ppp/session.go:88-136 | for every run, with no hypothesis on the peer: a success has LCP open in each direction exactly when a frame read says so, has an address exactly when one was acknowledged, and returns for each address the last one acknowledged |
| NegotiationLimits.IpcpWaitsIffRefusalsWait | internal/ppp/session.go:125-130 | for every run: no IPCP request goes out before LCP is open if and only if no answered frame refuses IPCP before the frames that open LCP |
| NegotiationLimits.OneRequestAtATime | internal/ppp/session.go:88-280 | for every run, with no hypothesis on the peer: at no point is more than one request per protocol without an answer, a response nobody waited for counting for nothing; between any two requests of a protocol a response to it has come in |
| NegotiationLiveness.SomethingIsEnabled | internal/ppp/session.go:88-136 | session and peer never deadlock before the negotiation ends, even if the peer never uses what it is free to send |
| NegotiationLiveness.EveryMaximalRunSucceeds | internal/ppp/session.go:88-280 | with a peer that keeps answering, makes its own acceptable requests and neither terminates nor refuses the address: under every interleaving and any finite budget of Naks, Rejects, echoes and garbage, a run has at most 8 * budget + 22 moves, never fails, and once nothing is left but what the peer is free to leave out it has succeeded |
| NegotiationLiveness.SuccessIsNegotiated | internal/ppp/session.go:88-136 | what the composed system calls success is Negotiate returning those addresses |
| NegotiationOutcomes.EverySuccessIsAgreed | internal/ppp/session.go:88-136 | safety and liveness together: every run of the closed system has a peer that answers in turn, so what Negotiate returns is the peer's latest suggestions, with LCP open both ways and the peer's request of each protocol acknowledged as it stood |
| NegotiationOutcomes.EveryRunIsOrderly | internal/ppp/session.go:88-136 | and at every point before the end at most one request per protocol is outstanding and IPCP waits for LCP |
| NegotiationOutcomes.RefusedForEver | internal/ppp/session.go:252-280 | on any number of Naks and Rejects of LCP or IPCP, in any order, Negotiate never succeeds, and it is left waiting for the next frame if and only if each of them has options that can be read and none suggests an address not of four bytes or rejects the address |
| NegotiationOutcomes.AlternatingNeverSettles | internal/ppp/session.go:258-269 | a peer that rejects MRU and magic number by turns is offered, at every turn, just the option it will reject next |
| Daemons.Daemon.BeginConnect | internal/service/daemon/daemon.go:120-159 | the refusals and the first critical section of connect |
| Daemons.Daemon.FinishConnect | internal/service/daemon/daemon.go:175-207 | the second critical section: aborted, failed or published |
| Daemons.Daemon.SettleState | internal/service/daemon/daemon.go:229-236 | the unconditional write that ends an aborted attempt |
| Daemons.Daemon.ConnectionStopped | internal/service/daemon/daemon.go:246-264 | the watcher's critical section, which ignores any connection but the published one; what it leaves is in DaemonProtocol.WatchersAreHarmless and DaemonProtocol.StatusTellsWhatHappened |
| Daemons.Daemon.BeginDisconnect | internal/service/daemon/daemon.go:274-307 | cancel the attempt, take the connection, or find nothing to do |
| Daemons.Daemon.FinishDisconnect | internal/service/daemon/daemon.go:311-319 | the unconditional write after Close |
| DaemonProtocol.ExactlyOnePlace | internal/service/daemon/daemon.go:171-320 | in every interleaving each connection ever opened is published, or in the hands of exactly one goroutine, or closed exactly once, and never two of these |
| DaemonProtocol.StateMeansWhatItSays | internal/service/daemon/daemon.go:55-77 | state, connection and cancelConnect say exactly what is in flight, and at most one attempt and one teardown ever are |
| DaemonProtocol.TeardownIsExclusive | internal/service/daemon/daemon.go:126-135 | while a disconnect or an abort is being undone nothing is published or in flight and connect is refused, so the unconditional writes only overwrite Disconnecting |
| DaemonProtocol.TeardownEndsDisconnected | internal/service/daemon/daemon.go:209-223 | a teardown goes from Disconnecting to Disconnected with no step in between |
| DaemonProtocol.AbortedIffDisconnected | internal/service/daemon/daemon.go:176-179 | the attempt finds itself aborted exactly when a disconnect ran since it began |
| DaemonProtocol.DisconnectWins | internal/service/daemon/daemon.go:175-223 | over any run between the beginning and the end of an attempt: it is published if and only if no disconnect ran, and a connection it opened in vain is handed over to be closed |
| DaemonProtocol.ClosedStaysClosed | internal/service/daemon/daemon.go:239-320 | no run closes a connection again, publishes it again or hands it out again |
| DaemonProtocol.WatchersAreHarmless | internal/service/daemon/daemon.go:239-272 | a stale watcher changes nothing; the watcher of the published connection leaves Error with the cause, or without one Disconnected and the message as it was; a published connection always has a live watcher |
| DaemonProtocol.NoWatcherIsForgotten | internal/service/daemon/daemon.go:189-205 | after every run, a watcher that a disconnect has not cancelled is that of the published connection |
| DaemonProtocol.ConnectIsRefusedIff | internal/service/daemon/daemon.go:120-146 | in every reachable state, exactly when connect is refused and for which reason: want of a cookie or gateway, a connection published or an attempt in flight, or a disconnect or abort being undone; a lost connection still closing is not among the reasons |
| DaemonProtocol.DisconnectDoes | internal/service/daemon/daemon.go:274-307 | in every reachable state a disconnect stops the attempt in flight, takes the published connection and its watcher, or finds nothing to do, which is an error unless a failure has been reported or a teardown is under way |
| DaemonProtocol.StatusTellsWhatHappened | internal/service/daemon/daemon.go:137-320 | after every run the daemon is in Error if and only if the last accepted request has failed to connect or lost its connection for a cause; the message is that of this failure, or of a close that failed; the gateway is the one that request asked for, each half from the default if it names none |
| DaemonProtocol.LostConnectionDoesNotHoldBackConnect | internal/service/daemon/daemon.go:254-271 | a new attempt can be dialing while a lost connection is still open |
| DaemonProtocol.ShutdownLeavesNothingBehind | internal/service/daemon/daemon.go:329-335 | after the Serve barrier and Shutdown nothing is published again, and the only connections not closed are the lost ones their watchers are still closing |
| Pumps.ClosingIsQuiet | internal/service/vpn/connection.go:286-443 | in every schedule done is closed at most once, each pump finishes at most one more iteration after the cancellation, and a failure the teardown caused is not recorded, the deadline exit excepted |
| Pumps.FirstCauseStays | internal/service/vpn/connection.go:336-343 | once done is closed the recorded cause never changes |
| Pumps.NobodyLeavesSilently | internal/service/vpn/connection.go:346-443 | in every schedule, until Close is called: done is closed if and only if a pump has gone, and then with a failure of its own recorded |
| Pumps.FailureIsRecorded | internal/service/vpn/connection.go:355-366 | whichever call of a pump fails first, that pump's own next steps record that failure and close done |
| Pumps.EveryPacketIsHandedOn | internal/service/vpn/connection.go:388-435 | in every schedule each packet read has been handed on, or is being handed on |
| Pumps.EveryReadIsArmed | internal/service/vpn/connection.go:355-360 | in every schedule each read of the tunnel has had its deadline set anew |
| Pumps.DeadlineExitRecordsTheTeardown | internal/service/vpn/connection.go:355-358 | the exception happens |
| Pumps.TeardownIsRecordedIffArmed | internal/service/vpn/connection.go:347-358 | after any run up to the cancellation, the teardown can still be recorded as the cause if and only if the tunnel pump is just about to set its deadline and nothing has stopped yet |
| Pumps.EveryStepCounts | internal/service/vpn/connection.go:286-443 | after the cancellation every step of any thread lowers a measure |
| Pumps.CloseIsNeverStuck | internal/service/vpn/connection.go:300-305 | the wait always has a step to wait for that is bound to happen |
| Pumps.CloseReturns | internal/service/vpn/connection.go:286-308 | at most 18 steps after the cancellation, in any schedule, Close has returned with both pumps gone |
| DataPlanes.Plane.TakeIn | internal/service/vpn/connection.go:369-399 | one frame: dropped if it cannot be decoded, written to the interface and counted if it carries IPv4, and otherwise handled as control traffic |
| DataPlanes.Plane.TakeInAll | internal/service/vpn/connection.go:350-400 | any frames, until something stops the pump: exactly their datagrams reach the interface, in order, and are counted |
| DataPlanes.Plane.SendOut | internal/service/vpn/connection.go:424-437 | one packet leaves as the frame of its IPv4 packet and is counted, unless it is too long or the write fails |
| DataPlanes.DevicePacketsArrive | internal/service/vpn/connection.go:346-443 | end to end: any packets that one side's interface gives up reach the other side's, whole, in order and once, through both codecs and behind any accepting head |
| Connections.Connection.MarkDone | internal/service/vpn/connection.go:336-343 | only the first call records a cause |
| Connections.Connection.Teardown | internal/service/vpn/connection.go:311-333 | every part is released once, whichever of the others failed to be; success is reported exactly when none did |
| Connections.Connection.Close | internal/service/vpn/connection.go:286-308 | only the first call does anything and every call reports what it met, which is no failure exactly when every part could be released |
| Connections.Connect | internal/service/vpn/connection.go:105-263 | succeeds if and only if every step does and no command fails, and then everything is in place; otherwise link and interface have been closed once each if they were there, and every address is reached as before |
| Connections.ConnectThenClose | internal/service/vpn/connection.go:188-308 | exactly when each of the two succeeds; afterwards every address is reached as before in any case, and over the very same table if closing met no failure |
| Connections.FailureIsUntouched | internal/service/vpn/connection.go:188-193 | whatever Apply left and whichever of Revert's commands failed, once the interface is gone the table is the old one, or that with the gateway's own route repeated |
| Connections.PublishedNetworksAreCarried | internal/forti/session.go:255-285 | from the published texts to packets: exactly the addresses move that some entry's own address and mask name more narrowly than the machine's table did; what is left alone had a route of its own |
| Connections.WhatTheTunnelCarries | internal/service/vpn/connection.go:158-172 | after every success, for every address: the caller's list or else the published one decides; with nothing readable on it, full tunnel moves what only the default route reached, and without full tunnel nothing moves |
| Connections.WhichNamesAreClaimed | internal/service/vpn/connection.go:470-479 | the tunnel's servers are asked for all names if it carries everything, else for those under the caller's domains, or else under the published suffix |
| Routes.CollectNetworks | internal/forti/session.go:262-279 | the loop keeps each readable network once, at its first occurrence |
| Routes.CollectedAreDistinct | internal/forti/session.go:262-279 | no network is lost and none is repeated |
| Routes.CollectedInOrder | internal/forti/session.go:259-280 | the networks stand in the order in which the list has them first |
| Routes.DestinationMatchesTheNetwork | internal/forti/session.go:65-80 | for the published address and mask themselves: the destination matches exactly the addresses that agree with the published one wherever the mask has a bit, and there is one exactly for masks that are a run of ones |
| Routes.DestinationIsInjective | internal/forti/session.go:73-77 | different networks never become the same destination |
| Routes.ResolveIsLongestMatch | internal/service/netcfg/linux.go:286-298 | the table's answer is the route of the longest matching prefix, and there is none exactly when nothing matches |
| Routes.OverlayResolves | internal/service/netcfg/linux.go:93-128 | an address moves exactly when what is added matches it more narrowly; ties are kept |
| Routes.InstalledAndConflicting | internal/service/netcfg/linux.go:97-121 | each wanted route conflicts or adds one entry, repeats included |
| Routes.DistinctConflictOnlyWithTheTable | internal/forti/session.go:259-261 | without repeats only existing routes conflict |
| Routes.OverlayIsUndone | internal/service/netcfg/linux.go:263-273 | link-down takes back any overlay |
| Routes.HalvesCoverEverything | internal/service/netcfg/linux.go:17-23 | the two halves match every address with exactly one bit |
| NetConfig.LinuxConfigurator.Apply | internal/service/netcfg/linux.go:50-91 | whatever fails and wherever, what is left is a pin or not and some first part of the routes; it succeeds if and only if success is foreseen and no command fails, and then all of it is in place; with nobody else at the table the check of the gateway never finds it captured |
| NetConfig.LinuxConfigurator.PinGatewayRoute | internal/service/netcfg/linux.go:149-181 | the pin is recorded as ours exactly when it was added by us |
| NetConfig.LinuxConfigurator.AddRoutes | internal/service/netcfg/linux.go:95-145 | split routes, both halves, or nothing |
| NetConfig.LinuxConfigurator.AddNetworks | internal/service/netcfg/linux.go:96-128 | existing destinations are listed as conflicts in order, all others are added, any other error stops |
| NetConfig.LinuxConfigurator.AddHalves | internal/service/netcfg/linux.go:138-142 | both halves or the error of the first that is taken |
| NetConfig.LinuxConfigurator.VerifyGatewayIsNotTunnelled | internal/service/netcfg/linux.go:185-201 | succeeds only with the gateway off the tunnel |
| NetConfig.LinuxConfigurator.ApplyDNS | internal/service/netcfg/linux.go:204-254 | success leaves the interface with exactly the negotiated servers and, as routing domains, the configured names or all of them in full tunnel |
| NetConfig.LinuxConfigurator.Revert | internal/service/netcfg/linux.go:256-283 | takes back our pin and the interface's routes and resolver; reports success exactly when no command failed; a second call changes nothing |
| NetConfig.ApplyRefinesRouting | internal/service/netcfg/linux.go:50-145 | after success, for every address: the gateway is reached exactly as before, others through the tunnel exactly when a wanted route is longer than any existing match |
| NetConfig.FullTunnelTakesTheDefault | internal/service/netcfg/linux.go:17-23 | full tunnel moves exactly the addresses that nothing but the default route matched, the gateway excepted |
| NetConfig.NothingWantedNothingMoves | internal/service/netcfg/linux.go:130-136 | no list and no full tunnel moves no address |
| NetConfig.GatewayIsNeverTunnelled | internal/service/netcfg/linux.go:183-201 | whatever is wanted, the gateway keeps its route |
| NetConfig.EveryRouteIsCounted | internal/service/netcfg/linux.go:97-121 | installed plus conflicts is the number of routes, and installed is the number of entries added |
| NetConfig.PinningIsInvisible | internal/service/netcfg/linux.go:147-181 | the pin changes how no address is reached |
| NetConfig.OverlapLosesThePin | internal/service/netcfg/linux.go:149-181 | a second connection applied before the first is taken back has no pin of its own; once the first is gone the gateway's pin is too, and for every address the second tunnel carries just what only it had wanted |
| NetConfig.OverlapCapturesTheGateway | internal/service/netcfg/linux.go:183-201 | the gateway then goes through the second tunnel if and only if one of those destinations matches it more closely than every route there was at first |
| Overlaps.RoutingAtEveryMoment | internal/service/netcfg/linux.go:50-283 | one configurator reverting while another applies: after any number of their commands in any order, refused ones included, the route of every address, from which pins stand and which destinations the second has taken since they were free |
| Overlaps.CheckVerdict | internal/service/netcfg/linux.go:185-201 | the second's check then fails if and only if no pin stands and a destination it has taken matches the gateway more closely than everything else there |
| Overlaps.CheckCanFailIff | internal/service/netcfg/linux.go:79-88 | some order makes that check fail if and only if the second could have had all it wants on its own and that matches the gateway more closely than anything before either |
| Overlaps.WhenTheFirstIsGone | internal/service/netcfg/linux.go:263-273 | once the first interface is down, every address goes through the second tunnel or exactly as before either |
| Overlaps.SuccessCanBeCapturedIff | internal/service/netcfg/linux.go:183-201 | some order leaves the gateway in the second tunnel although the second's Apply succeeded if and only if what it can have beside the first matches the gateway more closely than anything before either |
| Overlaps.PinnedAndYetCapturedIff | internal/service/netcfg/linux.go:149-181 | some order does so to a gateway the second has pinned itself if and only if, besides, the first's routes match the gateway more closely than anything before either |
| Overlaps.SuchAnOverlapExists | internal/service/netcfg/linux.go:138-142 | two settings for which all of that happens |
| Overlaps.ApplyAlone | internal/service/netcfg/linux.go:50-91 | the second's commands without the first's end as foreseen of a single Apply and leave the table it leaves |
| Overlaps.ApplyAloneEnds | internal/service/netcfg/linux.go:50-91 | and they do end |
| Overlaps.RevertAlone | internal/service/netcfg/linux.go:256-283 | the first's commands without the second's leave what a single Revert leaves, whichever are refused |
| NetConfig.RevertRestores | internal/service/netcfg/linux.go:256-283 | from any point after the address was added, Revert restores the very table |
| NetConfig.VanishedInterfaceIsInvisible | internal/service/netcfg/linux.go:17-23 | if the interface disappears instead, every address is reached as before |
| NetConfig.ApplyThenRevert | internal/service/netcfg/linux.go:256-283 | Revert reports success exactly when its commands do, and then the table is restored if and only if the address was not refused after our pin had been added; when it fails, if and only if the pin is gone and no route is left over the interface; a second Revert changes nothing |
| TunAdapters.Adapter.constructor | internal/service/tundev/device.go:61-83 | buffers sized from the MTU and the device's batch size |
| TunAdapters.Adapter.Refill | internal/service/tundev/device.go:126-148 | reads a new batch only when the last one is used up |
| TunAdapters.Adapter.HandOver | internal/service/tundev/device.go:150-160 | hands over the next packet of the batch; that it does is in TunAdapters.HeadIsHandedBack |
| TunAdapters.Adapter.Read | internal/service/tundev/device.go:126-160 | one call is one step of the queue |
| TunAdapters.Adapter.Write | internal/service/tundev/device.go:165-185 | exactly the caller's packet goes to the device, and the buffer never shrinks |
| TunAdapters.OneRead | internal/service/tundev/device.go:126-160 | one read takes at most the head of the queue, and counts what was dropped |
| TunAdapters.HeadIsHandedBack | internal/service/tundev/device.go:150-159 | with a packet at hand, one read returns the head of the queue if it fits the buffer, and otherwise reports its size and keeps it |
| TunAdapters.OverflowIsRecoverable | internal/service/tundev/device.go:127-141 | a read fails if and only if the device does; a batch that overflows the buffers is dropped, counted and gone past |
| TunAdapters.ReadsAreAQueue | internal/service/tundev/device.go:126-160 | over any calls, what was read followed by what is queued is the flattening of the batches, nothing lost, repeated or reordered |
| TunAdapters.EverythingIsHandedBack | internal/service/tundev/device.go:126-160 | as many reads as there are batches and packets, into buffers with room enough, return exactly the queue, unless the device breaks |
| TunAdapters.PumpBufferIsEnough | internal/service/vpn/connection.go:406-417 | over all reads of all devices, no packet is ever too long for the pump's buffer exactly when the device reports at least the MTU it was made with, or none and the default is enough |
| TunAdapters.Create | internal/service/tundev/device.go:49-56 | a new adapter has room for the MTU and the slack, and nothing queued |
| TunAdapters.PumpReads | internal/service/vpn/connection.go:403-425 | the pump's reads on a new interface stop exactly where the queue of packets says, and, if the reported MTU is at least the created one or absent and the default is enough, never for a packet too long |
| TunAdapters.PumpStopsAtAFailure | internal/service/vpn/connection.go:417-424 | the pump stops at the first read that fails and at no other |
| Controllers.Controller.DoRefresh | internal/client/state/controller.go:305-331 | the phase follows the daemon only while nothing is in flight |
| Controllers.Controller.BeginConnect | internal/client/state/controller.go:168-185 | starts a login under a new generation, or nothing |
| Controllers.Controller.BeginDisconnect | internal/client/state/controller.go:228-249 | starts a disconnect under a new generation, or nothing |
| Controllers.Controller.AbandonWork | internal/client/state/controller.go:258-270 | gives up a login and its generation |
| Controllers.Controller.Finish | internal/client/state/controller.go:273-289 | ends the current action only |
| Controllers.Controller.ExecuteMessage | internal/client/state/controller.go:292-300 | every closure the loop can take, stamped ones only under their own generation |
| Controllers.StaleMessagesDoNotInterfere | internal/client/state/controller.go:88-91 | deleting every message that is stale at its turn changes no snapshot, no field and no poll, for any queue and any daemon |
| Controllers.AbandonedActionIsSilent | internal/client/state/controller.go:258-300 | once an action is abandoned, everything it posted or will post might as well not exist |
| ControllerRuns.WorkingMeansOneAction | internal/client/state/controller.go:76-91 | in every interleaving `working` holds exactly when one action is live or about to report its end, Cancel reaches it exactly when it is a login, and the login URL shows only while that login waits |
| ControllerRuns.SnapshotsAreHonest | internal/client/state/snapshot.go:64-100 | every snapshot ever published is busy with an action in flight, and without one shows no daemon or says which state the stored status has |
| ControllerRuns.WhatIsToldIsShown | internal/client/state/controller.go:168-331 | after every run the snapshot last published is the current one and shows the failure, login URL and status told last; with nothing in flight its phase is that of the daemon, or that there is none |
| ControllerRuns.AnswersAreReported | internal/client/state/controller.go:359-374 | a worker reports success exactly for an OK answer, and otherwise a failure that says why |
| ControllerRuns.LoginsAreReported | internal/client/state/controller.go:196-215 | a worker reports each URL, its failure or its success under its own generation, and asks the daemon only after success |
| ControllerRuns.RunsOnIffGivenUp | internal/client/state/controller.go:190-225 | for every run and every worker still out: it is no longer the action in flight if and only if it is a login that an executed Cancel gave up |
| ControllerRuns.TwoRequestsAtOnce | internal/client/state/controller.go:142-154 | two requests are with the daemon at once only if the older one is that of a login given up |
| ControllerRuns.GivenUpLoginStillConnects | internal/client/state/controller.go:208-222 | a run in which that happens: the request goes out while the controller is idle |
| Mailboxes.Updates.Emit | internal/client/state/controller.go:334-353 | the three selects, the renderer getting in anywhere, always place the newest snapshot |
| Mailboxes.LatestValueWins | internal/client/state/controller.go:334-353 | in every interleaving the third select succeeds, the renderer sees strictly newer snapshots, and each snapshot is rendered, replaced or waiting |
| Mailboxes.EmitNeverWaits | internal/client/state/controller.go:334-353 | emit returns after three of its own steps whatever the renderer does |
| AllowLists.ArgsValue | internal/install/install.go:624-636 | the last assignment wins |
| AllowLists.FlagValue | internal/install/install.go:606-620 | reads one flag in either form and steps past its value |
| AllowLists.AddIds | internal/install/install.go:591-597 | adds exactly the ids that can be read |
| AllowLists.ParseArgs | internal/install/install.go:576-601 | the index loop computes the recursive reading of the file |
| AllowLists.FileMeans | internal/install/install.go:576-636 | for every file, field by field: a user is allowed if and only if some list in the last assignment has a number among spaces that is the user; every field that is neither a list nor the flag before one is carried over in order |
| AllowLists.AssignmentIsRead | internal/install/install.go:624-636 | an assignment may stand among spaces and its value in quotes |
| AllowLists.LastAssignmentWins | internal/install/install.go:624-636 | for any lines before and lines that assign nothing after |
| Texts.AtoiReadsNumbers | internal/install/install.go:594 | exactly which texts are numbers an int can hold, and which |
| Texts.TrimmedAround | internal/install/install.go:627-632 | trimming takes exactly what is to be cut off either end |
| AllowLists.SortIds | internal/install/install.go:555-560 | the ids in ascending order, each once |
| AllowLists.MergeConf | internal/install/install.go:547-572 | writes the file the merging theorems are about |
| AllowLists.ReadBackIffClean | internal/install/install.go:547-636 | a written file is read back whole if and only if no quote stands at an end of the argument line |
| AllowLists.MergeKeepsEverything | internal/install/install.go:536-553 | for every file the merge keeps all ids and all other flags in order and adds the user, exactly under that condition |
| AllowLists.MergeIsIdempotent | internal/install/install.go:528-534 | installing twice equals installing once, exactly under that condition |
| AllowLists.OrderOfInstallsIsIrrelevant | internal/install/install.go:540-542 | for every file and any two users, either order gives the same file |
| AllowLists.QuotesAreLost | internal/install/install.go:632 | with a flag that ends in a quote the second install changes the file |
| AllowLists.SuchAFileExists | internal/install/install.go:624-636 | a file that is read as holding such a flag |

## Left out

- Identifiers and counters of 64 bits: the controller's generation and the byte counters are not wrapped; the PPP identifier and every wire field are.
- `status` of the daemon and its `since`: reports fields the other theorems are about; timestamps and log lines are dropped everywhere.
- Deadlines, dialling and TLS: a read or a dial fails or returns whenever it likes, and a cancelled context is one more reason to fail.
- Partial network writes: a write to the link puts all of its bytes on the wire or none.
- Allocation of buffers by the reader: `bufio.Reader` is a sequence of bytes still to come, and a read returns all it was asked for or drains the stream.
- The HTTP requests of `internal/forti/session.go` and its XML: the published list arrives as entries whose texts are already read or refused.
- The full automaton of RFC 1661 section 4, with timers and restart counters, which the code does not implement either.
- Randomness of the magic number: the session takes any four bytes.
- Sockets, peer credentials and JSON of `internal/ipc`: only the barrier that keeps Serve from returning while a request is answered is modelled.
- Extra concurrent callers of Close: the daemon makes one, and `sync.Once` is taken at its word.
- The capacity of the controller's command channel, and the actor's shutdown: messages wait in an unbounded queue and are executed one at a time.
- What the login does: a worker reports any URLs, then fails or succeeds; a login that reports its URL after it returned is excluded.
- What the tun library calls a packet longer than its buffer: the model takes it for the overflow that the library documents as recoverable.
- More than one lost connection beside a new one: `Overlaps` has one Revert and one Apply, and a route over an interface that is down is refused there.
- Route metrics, the kernel's local table and other programs changing routes meanwhile: one route per prefix, and only the modelled commands change the table.
- `parseRouteGet` and the recognition of "File exists" by its text: the kernel answers with the route, with "exists" or with a failure.
- A tun device that outlives its file descriptor: closing it takes its addresses, routes and link state with it, also when the close reports an error.
- Text that is not valid UTF-8 in the environment file: a string is a sequence of code points.
- The rest of `internal/install`, `internal/release`, `internal/log`, `internal/desktop`, `internal/probe`, `internal/client/auth`, `internal/client/gui` and the commands: formatting, file system and user interface.
- Connections.Connection.Teardown: does not list the errors it joins, only whether there were any, because their texts are not modelled.
- AllowLists.MergeConf: writes some explanation at the top of the file, of lines without a newline in them; its wording is not modelled.
