# rttys, modelled and proved

rttys is a broker between terminal devices and browser users, with a TCP-tunnel service on top.
These Dafny modules model its event loop, its tunnel table and ports, its wire formats and the two
clocks that matter, and prove what holds over every run. Go strings and byte slices are sequences
of bytes (`bytes.dfy`); 16-, 32-bit and fixed-width fields truncate as in the source.

| files | part of the system |
|---|---|
| `brokerspec.dfy`, `brokerruns.dfy`, `sessionprotocol.dfy`, `delivery.dfy`, `sessioninput.dfy`, `brokereffects.dfy`, `broker.dfy` | the broker loop: its state machine, its invariant, the protocol of one session, delivery in both directions, what the client understands of it, what each side is owed, and the loop's own cases over mutable tables and connections |
| `tunnels.dfy`, `tunnelruns.dfy`, `tunneleffects.dfy`, `tunnelleftovers.dfy`, `tunnellife.dfy`, `tunnellisteners.dfy`, `tunnelservice.dfy` | the tunnel table, ports and handlers; whole runs together with the devices' clients; what one request changes; what clients know exactly; the life of a tunnel; when it has its listener; the handlers over mutable state |
| `frames.dfy`, `inbound.dfy`, `browserinput.dfy`, `tunnelmsg.dfy`, `tunnelwire.dfy`, `client.dfy`, `demux.dfy` | framing, the messages in both directions, tunnel messages and their dispatch, response routing |
| `token.dfy`, `dbtime.dfy`, `safepath.dfy` | access tokens, stored timestamps, the client's path normalisation |
| `inactivity.dfy`, `ackflow.dfy` | the inactivity counter and the acknowledgement counter |

Imperative code is modelled imperatively: `BrokerLoop.Broker`, `TunnelService.TunnelServer`,
`ResponseRouting.Router`, `TunnelClient.Client`, `Frames.Stream` and `AckFlow.Terminal` are classes
whose methods are proved to do exactly what a specification function or state machine says;
`Inbound.ReadLoop` and `Inactivity.WriteLoop` are the loops of a device connection. The theorems over
runs are then about those specifications, for every sequence of events that may happen.

## What was found

- Stored timestamps are written in local time and read back as UTC (`tunnel.go:35-61`). The expiry
  sweep and the expiry check of the proxy therefore agree exactly when the server runs on UTC;
  `DbTime.ExpiryInstants` says when each acts for any offset.
- Without the leading flag byte the legacy HTTP header is misread for every source port below 512;
  with the flag, or from 512 on, never (`TunnelMessages.LegacyRecovered`).
- A create message with a protocol name over 33 bytes can be taken for tunnel data, and one over 255
  bytes is not recognised; `TunnelMessages.CreateDispatched` has the exact condition.
- An insert into the tunnel table can only fail because twelve generated hex digits repeat
  (`Tunnels.InsertRefusedIffIdTaken`); an update never fails.
- A new tunnel whose port cannot listen is revoked again, but its device was already told to open it
  and is not told otherwise. The client keeps the entry until the tunnel is deleted or, after being
  created again, expires: a client knows a tunnel exactly when it is an active one of its device with
  a readable protocol name or such a leftover (`TunnelLeftovers.DrainedClientExact`), and leftovers
  do occur (`TunnelLeftovers.LeftOverIsReachable`).
- A request of a token proxy is put in one frame whatever its size; the client gets it as meant
  exactly when it has at most 65434 bytes (`TunnelWire.RequestReachesClient`).
- An active tunnel has no listener exactly when the last create for its target, then a renewal, could
  not listen (`TunnelListeners.ActiveListensUnlessUnheard`).
- `register` and `unregister` are taken in any order. A connection that is lost right after
  registering can be unregistered twice before its registration is taken; the dead connection then
  holds its id for good, and every other with that id is refused
  (`SessionProtocol.DeadConnectionKeepsId`).
- A session survives its user when the user is unregistered only before the login is acknowledged;
  `SessionProtocol.SessionLastsIff` has the exact condition.
- The inactivity limit of a registered device is 11.5 s to 16.5 s of silence, not 7.5 s: it is dropped
  at a heartbeat tick at which it was silent for more than 11.5 s, and a device heard at least that
  often stays.
- Acknowledgements wrap at 16 bits as soon as chunks may be larger than 61439 bytes
  (`AckFlow.LosslessIffChunksBounded`).

## Model

| member | source | states |
|---|---|---|
| SessionProtocol.EveryRunFollowsTheProtocol | broker.go:65-314 | after any run, whatever the order of events, the tables are consistent, and the writes for every session id all go to one device: one Login first, everything else after it and after an accepted acknowledgement, a Logout last |
| SessionProtocol.PhaseGivesGrammar | broker.go:109-184 | the per-session automaton kept by each event accepts only logs with that grammar |
| SessionProtocol.StepKeepsPhase | broker.go:71-308 | no event leads any session out of the automaton |
| SessionProtocol.EndedSessionStaysSilent | broker.go:149-168 | an ended session never comes back and nothing is written to any device for it again, however the run goes on |
| SessionProtocol.ForwardedIsForSession | broker.go:243-290 | what a user's message becomes carries the session's id and is neither Login nor Logout |
| SessionProtocol.StaleUnregister | broker.go:133-143 | at any point of any run, unregistering a connection that is not registered leaves the tables, the waiting messages and the connections of the whole rest of the run as they would be without it |
| SessionProtocol.AdmissionExact | broker.go:79-106 | a registration is accepted exactly when the id is free, the token is the configured one (or none is) and the protocol is at least 3; the device is then entered under its id and told 0 and "OK", else no registration changes and it is told 1 |
| SessionProtocol.RegisteredIffTaken | broker.go:79-106 | over any run exactly the connections are registered that came with a free id and such credentials, or were registered before, and that were not unregistered since |
| BrokerEffects.RegisteredHaveCredentials | broker.go:83-87 | after any run every registered device has the configured token, if there is one, and protocol 3 or more |
| BrokerEffects.AdmittedStays | broker.go:93-95 | a connection that comes with a free id and good credentials is registered then and stays so until it is unregistered |
| SessionProtocol.SecondUnregister | device.go:197-201 | of the two unregisters a connection posts, the second has an effect exactly when the connection's own registration was accepted in between and stood; else it changes nothing in that sense, even if another connection has taken the id |
| SessionProtocol.OvertakenRegistration | broker.go:70-133 | a run in which the second one is effective: the first is taken before the registration |
| SessionProtocol.DeadConnectionKeepsId | broker.go:79-95 | when both are taken before the registration, the connection stays registered whatever follows and every other with its id is refused |
| SessionProtocol.EffectiveUnregister | broker.go:145-155 | an effective one removes exactly that connection's entry and sessions |
| SessionProtocol.UnregisterCloses | broker.go:149-155 | and closes the users of exactly those sessions |
| SessionProtocol.DeviceStays | broker.go:79-106 | over any run a device stays under its id until its own connection is unregistered, whatever happens to others with the same id |
| SessionProtocol.SessionStays | broker.go:133-195 | over any run a session lasts until its own device or user is unregistered or its device logs it out |
| SessionProtocol.SessionLastsIff | broker.go:149-168 | over any run a session is gone exactly when its device was unregistered or logged it out, or its user was unregistered with the login acknowledged by then |
| BrokerEffects.LogoutExact | broker.go:158-168 | over any run after a session was opened, its own device is written exactly one Logout when it is the user's unregister that ends the session, and no device any otherwise |
| BrokerEffects.UserLogsOut | broker.go:159-166 | a user who leaves a confirmed session logs it out at its device; one who leaves before the acknowledgement, or another, does not |
| BrokerEffects.GoneIsClosed | broker.go:136-155 | over any run, if a session is gone, its user's connection was closed |
| BrokerEffects.EndCloses | broker.go:189-194 | whatever event ends a session closes that connection |
| BrokerEffects.UnregisterClosesItself | broker.go:133-136 | every unregister, stale or not, closes its own connection |
| BrokerEffects.EnteringExact | broker.go:108-130 | a user who enters gets a session with the device registered under the id asked for, which is written Login with the session's id, or is told that there is none |
| BrokerEffects.RequestsDelivered | broker.go:297-308 | as long as a device is registered it is written exactly the commands and HTTP requests for its id, each under its type, in order |
| BrokerEffects.DownIff | broker.go:202-249 | the process ends exactly at an empty file message or an empty binary message of a live session |
| SessionDelivery.InputDelivered | broker.go:238-295 | while a confirmed session lasts, writes to its device followed by what waits are the earlier ones followed by what its user sent meanwhile, in order: nothing lost, repeated or from anyone else |
| SessionDelivery.SessionInputExact | user.go:86-96 | from its confirmation on, the device gets exactly what the session's user sends, up to what still waits |
| SessionDelivery.OutputDelivered | broker.go:172-236 | while a session lasts its user is told exactly what its device says - how the login went, terminal output, the three file notices - in order |
| SessionInput.ClientHearsTheUser | rtty-client/main.go:313-345 | from its confirmation on, what the client understands for a session, of everything on its connection, is what the session's user does in the page, in order, up to what still waits, when the inputs fit their fields and all writes to the device fit frames |
| SessionInput.ConnectionUnderstood | rtty-client/main.go:482-505 | of all frames to a device the client takes for a session exactly those written for it |
| BrokerRuns.StepKeepsInv | broker.go:71-308 | a device is registered exactly when the table has it under its id; sessions belong to a registered device with their user's device id; a session is confirmed exactly when its user's sid is its key; users of sessions are distinct; a live sid names its own user's session; waiting messages never name an unconfirmed session |
| BrokerLoop.Broker.RegisterDevice | broker.go:74-107 | the verdict, the reply and the whole new state of a device registration |
| BrokerLoop.Broker.RegisterUser | broker.go:108-130 | a user's registration opens a session with the device and writes Login, or answers that the device is offline |
| BrokerLoop.Broker.UnregisterDevice | broker.go:138-157 | the loop that deletes while it iterates leaves exactly the other devices' sessions and closes the users in the order it met them |
| BrokerLoop.Broker.CloseSessions | broker.go:149-155 | the same for the loop alone |
| BrokerLoop.Broker.UnregisterUser | broker.go:158-170 | ends the session named by the user's sid and writes Logout to the device now under the user's device id |
| BrokerLoop.Broker.LoginAck | broker.go:172-185 | confirms the session and gives its user the sid, or reports that the device is busy |
| BrokerLoop.Broker.Logout | broker.go:189-195 | the device ends a session |
| BrokerLoop.Broker.TermMessage | broker.go:197-200 | terminal output goes to the session's user |
| BrokerLoop.Broker.FileMessage | broker.go:202-236 | file messages become the three notices, and an empty one ends the process |
| BrokerLoop.Broker.UserReads | user.go:86-96 | a message is tagged with the sid its connection has when it is read |
| BrokerLoop.Broker.HandleUserMessage | broker.go:238-295 | the head of the queue is written to the session's device or dropped, and an empty binary one ends the process |
| BrokerLoop.Broker.Request | broker.go:297-308 | commands and HTTP requests go to a registered device only |
| BrowserInput.InputReachesClient | ui/src/views/Rtty.vue:107-168 | keys, window sizes and uploads, as forwarded by the broker and framed, are what the client understands exactly when they fit their fields and one frame |
| BrowserInput.UnderstoodFrame | rtty-client/main.go:482-505 | of a whole frame the client takes the session, the input and its numbers up to their width |
| BrowserInput.ForwardedBytes | broker.go:243-290 | the frame that each message of a user becomes, byte by byte; other texts become none |
| BrowserInput.LoginUnderstood | ui/src/views/Rtty.vue:232-241 | the page takes the number in a login message for the outcome that it was sent for |
| Tunnels.CreateKeepsInv | tunnel_api.go:91-195 | create and refresh keep tunnel ids, public ports, tokens and targets distinct, tokens readable and listeners backed by active rows; a refresh never meets a UNIQUE conflict |
| Tunnels.DeleteKeepsInv | tunnel_api.go:201-233 | so does delete |
| Tunnels.SweepKeepsInv | proxy.go:460-477 | so does a sweep |
| Tunnels.InsertRefusedIffIdTaken | tunnel.go:131-147 | an insert meets a UNIQUE conflict exactly when the generated tunnel id is in the table |
| Tunnels.NormalizedExact | tunnel_api.go:101-106 | a request is for its own device, port and protocol, "http" if it names none, and is due after its own duration, or the default one if that is not positive |
| Tunnels.ExpiredIds | tunnel.go:417-441 | the rows a sweep returns are exactly the active ones whose expiry text is at most now, each once |
| Tunnels.FreePort | proxy.go:58-77 | the scan returns the least port no active row holds and that can be probed, or there is none |
| TunnelRuns.Reachable | tunnel_api.go:91-233 | every state reachable by creates, refreshes, deletes, sweeps, deliveries and devices coming and going satisfies the table, port, token and agreement invariants |
| TunnelRuns.DrainedClientAgrees | rtty-client/main.go:678-701 | once the queue is drained, a client whose device stayed registered has every active tunnel of that device with the right protocol, and with the right port exactly when it fits 16 bits |
| TunnelRuns.StepKeepsInv | proxy.go:467-477 | each event keeps that agreement between table, queue and clients |
| TunnelLeftovers.DrainedClientExact | tunnel_api.go:158-181 | once the queue is drained, the client of a device that stayed registered knows a tunnel exactly when it is an active one of the device with a readable protocol name, or one left over by a create that could not listen, not deleted and not swept since |
| TunnelLeftovers.CannotListenIffReply | tunnel_api.go:175-181 | such a create is, in terms of the request, the ports and the ids before it, exactly one for a new target that is answered with "failed to start proxy server" |
| TunnelLeftovers.StepExact | tunnel_api.go:223-233 | each event keeps every client exact in that way, leaving or clearing one tunnel at most as the event says |
| TunnelLeftovers.LeftOverIsReachable | tunnel_api.go:175-181 | one device, one create whose port cannot listen and the delivery of its message leave the client with a tunnel that is not active |
| TunnelEffects.NewTunnelExact | tunnel_api.go:158-195 | after any run, creating for a target that has no row succeeds exactly when the request names a registered device and a port, a public port is usable, the generated id is free and listening works; it then adds exactly the row asked for, every field of it, on the least usable port, with its listener and message; a failed one adds no listener and no active row; other rows stay, except revoked ones of the chosen port |
| TunnelEffects.RefusedExact | tunnel_api.go:95-171 | after any run, for which requests each refusal is the answer, and that nothing changes at the first three |
| TunnelEffects.NewTargetOutcome | tunnel_api.go:158-181 | and it fails only because the port cannot listen exactly when all but that holds |
| TunnelEffects.DeleteExact | tunnel_api.go:216-233 | after any run, delete revokes one row and touches no other, stops its listener, and queues one message to its device |
| TunnelEffects.DeleteUnknown | tunnel_api.go:216-220 | deleting a tunnel that has no row changes nothing and says so |
| TunnelEffects.SweepQueuesExactly | proxy.go:467-477 | after any run, a sweep queues exactly one revoke message for each row that it deactivates and whose device is registered, and no other |
| TunnelRuns.AllocationExact | proxy.go:58-77 | after any run the allocator returns the least port neither held by an active row nor taken from outside, and fails only if there is none |
| TunnelRuns.DeletedPortReturns | proxy.go:134-140 | after any run, deleting a tunnel makes its port available again |
| TunnelRuns.RefreshKeepsTunnel | tunnel_api.go:118-156 | after any run, creating for a target that has a row gives that row a new token, the expiry asked for, the creator and the time, makes it active, keeps all else of it and touches no other row; it queues the create message; it is answered with success, and the port listens, exactly when it listens already or can |
| TunnelLifetime.SweepExact | tunnel.go:409-451 | after any run every row expires at some instant, and a sweep within the years 0 to 9999 deactivates it exactly when it is active and that second has come, and then frees its port |
| TunnelLifetime.TunnelLivesUntilSwept | tunnel.go:131-160 | a tunnel created or renewed after any run, and neither deleted nor renewed since, stays as it was answered until a sweep comes at or after its creation time plus its duration, and is revoked or gone from then on |
| TunnelListeners.ActiveListensUnlessUnheard | tunnel_api.go:136-139 | after any run an active tunnel has a listener exactly unless the last create for its target could neither reuse a listening port nor listen on its own |
| TunnelListeners.StepMutes | proxy.go:80-140 | each event keeps, or sets, whether the active tunnel of a target has its listener, as the event says |
| TunnelService.TunnelServer.AllocatePort | proxy.go:58-77 | the loop returns the first free port of the range |
| TunnelService.TunnelServer.EnsureProxy | proxy.go:80-131 | a listening port is reused, a new one added if listening works |
| TunnelService.TunnelServer.RefreshTunnel | tunnel_api.go:124-156 | new rows, queue, listeners and reply of a refresh, with its failure branches |
| TunnelService.TunnelServer.EstablishTunnel | tunnel_api.go:158-195 | the same for a new tunnel, which is revoked again when its port cannot listen |
| TunnelService.TunnelServer.HandleTunnelCreate | tunnel_api.go:91-195 | the handler does what the specification says and keeps the invariant |
| TunnelService.TunnelServer.HandleTunnelDelete | tunnel_api.go:201-233 | the same for delete |
| TunnelService.TunnelServer.CleanUp | proxy.go:460-477 | the same for one round of the scheduler |
| TunnelService.TunnelServer.Retire | proxy.go:467-477 | the loop stops every expired port and queues one revoke for each registered device |
| TunnelClient.Client.Handle | rtty-client/main.go:678-717 | what the client's handler does with a message, its new table, and the local port it dials |
| Frames.RoundTrip | device.go:128-140 | the stream of any frames within the limits decodes to exactly those frames |
| Frames.FrameArrivesIntact | device.go:136-138 | one frame arrives as sent exactly when its payload fits the 16-bit length |
| Frames.UnknownTypeStops | device.go:218-221 | a frame of an unknown type ends the reading after the frames before it |
| ByteStrings.BigEndian | device.go:136-137 | numbers are written with their most significant byte first, cut to their field |
| Frames.PrefixDecodesToPrefix | device.go:206-230 | any prefix of any stream decodes to a prefix of its frames |
| Frames.ArrivedSoFar | rtty-client/main.go:300-311 | after any number of chunks of a stream of frames, a reader has a prefix of them, and all after the last |
| Frames.Stream.ReadFull | rtty-client/main.go:300-311 | full reads do not depend on how the stream is cut into chunks |
| Frames.Stream.ReadFrame | device.go:206-230 | one turn takes exactly the first frame, or stops for the same reason as the decoder |
| Frames.Stream.ReadFrames | rtty-client/main.go:313-318 | the reading loop yields exactly the decoded frames |
| Inbound.ReadLoop | device.go:197-305 | the server's reading loop hands on exactly the messages of the stream, and ends for the right reason |
| Inbound.RegisterRoundTrip | device.go:174-191 | a registration is read back exactly when no field holds a NUL |
| Inbound.UnderstoodIffSpeakable | device.go:234-303 | the server understands each client message as meant exactly when it meets the server's length checks |
| Inbound.FirstBadMessageStops | device.go:234-303 | the messages before the first invalid one are handed on, and none after it |
| Inbound.ServerHearsTheClient | rtty-client/main.go:275-290 | of any sequence of such messages the broker gets exactly the meanings of those that fit a frame, in order; the others are refused and leave no trace |
| TunnelMessages.DataRoundTrip | proxy.go:397-427 | a data message in one frame parses back to its fields exactly when they fit |
| TunnelMessages.DataFields | proxy.go:395-407 | where each field of a data message is |
| TunnelMessages.ParseThenBuild | proxy.go:410-427 | whatever parses is rebuilt to exactly the bytes it was read from |
| TunnelMessages.RequestDispatched | rtty-client/main.go:678-684 | a data request is proxied with its fields exactly when they fit |
| TunnelMessages.ResponseIgnored | rtty-client/main.go:679-684 | a response that comes to the client is ignored |
| TunnelWire.RequestReachesClient | tunnel_api.go:361-382 | a data request of any size, written to the device, is proxied as meant exactly when its ids fit and the whole fits one frame |
| TunnelWire.CreateReachesClient | tunnel_api.go:171-173 | a create message of any size, written to the device, opens the tunnel meant exactly when id, port and protocol fit |
| TunnelWire.ResponseReachesServer | rtty-client/main.go:719-722 | the client writes a response exactly when it fits one frame, and the server then parses it as meant exactly when its ids fit |
| TunnelMessages.CreateDispatched | rtty-client/main.go:686-692 | a create message opens the tunnel meant exactly when id, port and protocol fit |
| TunnelMessages.CreateFields | proxy.go:429-442 | where each field of a create message is |
| TunnelMessages.CreateOutcome | proxy.go:431-442 | and otherwise opens and closes none, or opens it with what its fields kept |
| TunnelMessages.RevokeDispatched | proxy.go:445-449 | a revoke message closes the tunnel it was built for exactly when its id fits |
| TunnelMessages.LegacyRecovered | rtty-client/main.go:730-743 | the legacy header is recovered exactly when a flag was sent or the source port is at least 512 |
| TunnelMessages.WrittenLegacyRecovered | http.go:121-139 | which is the case exactly for devices of protocol 4 or more, or such ports; the flag says whether the target speaks HTTPS |
| TunnelMessages.KeysDiffer | http.go:102-110 | connections from different addresses or ports have different keys |
| ResponseRouting.LegacyConnectionExact | http.go:73-85 | over any interleaving, a legacy connection is sent exactly the chunks with its device and address since it opened, up to the first empty one |
| ResponseRouting.TokenStreamExact | tunnel_api.go:367-398 | a token-proxy stream is answered with exactly its first payload of its own tunnel, if not empty |
| ResponseRouting.Router.HandleHttpProxyResp | http.go:35-86 | the handler's whole effect on the connection tables |
| ResponseRouting.Router.Open | http.go:192-195 | a connection is entered under its device and address |
| ResponseRouting.Router.Register | tunnel_api.go:367-379 | a stream is entered with its tunnel id and an empty reply channel |
| AccessTokens.ParseInvertsGen | tunnel.go:65-92 | a token gives back its tunnel id, for every id and signature |
| AccessTokens.TokensDiffer | tunnel.go:65-78 | tokens of different tunnels differ |
| AccessTokens.TokenParts | tunnel.go:65-78 | both the signature and the tunnel id can be read back from a token |
| AccessTokens.Examples | tunnel.go:73-74 | the encoding gives the examples of section 10 of RFC 4648 without padding, and the two characters of its section 5 |
| AccessTokens.LineBreaksSkipped | tunnel.go:86-86 | line breaks do not count |
| AccessTokens.ForeignRefused | tunnel.go:86-89 | any other byte outside the alphabet makes a text invalid |
| AccessTokens.DecodeInvertsEncode | tunnel.go:74-75 | unpadded base64url decodes what it encodes, for every byte string |
| AccessTokens.SplitAtFirstDot | tunnel.go:114-128 | the token is split at its first dot |
| DbTime.ParseInvertsFormat | tunnel.go:35-61 | a stored timestamp reads back as the same second of the local clock, for years 0 to 9999 |
| DbTime.TextOrderIsTimeOrder | tunnel.go:421-424 | comparing timestamps as text compares the seconds they stand for |
| DbTime.ExpiryInstants | proxy.go:305-309 | the exact instants from which a row is swept and its token refused |
| DbTime.SweepAgreesWithCheck | proxy.go:305-309 | both agree at every instant but the stored expiry exactly when the clock runs on UTC |
| DbTime.CivilOf | tunnel.go:59-61 | the calendar date of a second is valid and stands for exactly that second |
| DbTime.CivilOfInverts | tunnel.go:59-61 | and a date is that of its own second |
| DbTime.YearStartGregorian | tunnel.go:59-61 | years start on the days of the Gregorian calendar: one day more for every fourth year, not for every hundredth, but for every four hundredth |
| DbTime.MonthStarts | tunnel.go:59-61 | the day on which each month starts, in ordinary and leap years |
| DbTime.TextBytes | tunnel.go:60-60 | the nineteen bytes of a timestamp |
| DbTime.FormatsTheDate | tunnel.go:59-61 | a stored timestamp is the text of the Gregorian date and time of its second on the local clock |
| Inactivity.WriteLoop | device.go:307-357 | with a tick a second, the counter loop drops a connection at the first tick that finds its id still empty and more than 7.5 s of silence, or finds a device at a heartbeat with more than 11.5 s of it, and sends a heartbeat every five ticks before |
| Inactivity.SilentDeviceIsDropped | device.go:332-345 | a device silent from time a on, registered by then, is dropped at the one heartbeat tick in (a + 11.5 s, a + 16.5 s] |
| Inactivity.AudibleDeviceIsKept | device.go:232-232 | one heard at least every 11.5 s (7.5 s before it registers) is never dropped for inactivity |
| AckFlow.Terminal.OnData | ui/src/views/Rtty.vue:269-279 | the handler's new counter and the acknowledgement it sends |
| AckFlow.Conservation | ui/src/views/Rtty.vue:269-279 | acknowledgements sent plus the counter are the bytes received, and the counter never exceeds a block |
| AckFlow.WireWraps | broker.go:266-272 | an acknowledgement becomes an ack message with its number cut to 16 bits |
| AckFlow.ToldIffFits | broker.go:266-272 | the device is told the true count exactly when every acknowledgement fits 16 bits, and less otherwise |
| AckFlow.LosslessIffChunksBounded | broker.go:266-272 | no byte is lost whatever the chunks exactly when they are bounded by 61439 |
| AckFlow.ClientOutputIsAccounted | rtty-client/main.go:425-438 | the client's 4096-byte reads reach the broker as they were read and are all accounted for |
| SafePath.SafePathStaysBelow | rtty-client/main.go:673-676 | the path's components are the root's followed by those of the normalised name, none empty, `.` or `..`, and normalising again changes nothing |
| SafePath.OneMoreComponent | rtty-client/main.go:674-674 | what one more component does to a cleaned path: an empty one or `.` nothing, `..` takes the last one back if there is one, any other is added |
| SafePath.OneMoreName | rtty-client/main.go:673-676 | and to a name: `..` climbs one level, but never above the root |
| SafePath.ReachableIffBelow | rtty-client/main.go:673-676 | the paths some name leads to are exactly the clean ones at or below the root |
| SafePath.SafePathStartsWithRoot | rtty-client/main.go:673-676 | as text the path is the root or starts with it and a slash |
| SafePath.CleanTwice | rtty-client/main.go:674-674 | cleaning is idempotent and keeps the components |

## Left out

- Sockets, TLS, the websocket upgrade, HTTP and JSON parsing and writing, processes, file contents, SQL text, logging, configuration and the pages' rendering: events, byte sequences and a table stand for them.
- Goroutines and channels: each case of the loop, each handler and each sweep is one atomic step; a full or closed channel is not modelled, and a write to a device is the attempt that the loop makes.
- Timers that close a connection (100 ms after a rejected registration, 3 s without a confirmed login): they only lead to unregister events, which may come at any time anyway.
- A device that registers again under another id on the same connection, and a user object that registers twice: ids are fixed per connection and users enter once.
- Session ids are assumed new each time, as are stream ids; MD5 and HMAC are uninterpreted.
- That a device speaks only for its own sessions is not checked by the loop, which routes by session id alone.
- File data and aborts from a device go to a pipe, and its asynchronous acknowledgements are no writes of the loop.
- Command requests and replies: the first parameter is glued to the count, so the list does not round-trip.
- TunnelRuns.DrainedClientAgrees: like TunnelLeftovers.DrainedClientExact, says nothing about devices that were disconnected since, or were ever asked to open a tunnel whose create message exceeds one frame; the client is taken to handle messages in arrival order, though it starts a goroutine for each.
- `restoreTunnelProxies` and the closing of pending proxy connections by delete and sweep.
- The database never errors, its clock has one fixed offset, and durations do not overflow 64 bits.
- DbTime.ParseInvertsFormat: covers the stored layout; a driver may hand the value over in RFC 3339 form, which names the same second.
- The ORDER BY in `getTunnelByDevPort`: at most one row matches.
- Tunnels.ExpiredIds: lists the rows by primary key, an order the query does not fix.
- How the client classifies arbitrary legacy payloads: it is ambiguous by length, so only the header function is covered.
- Inactivity.WriteLoop: ticks are exactly a second apart from the start of the loop, writes succeed, and an id once registered is not taken back.
- SafePath.SafePath: covers slash-separated absolute roots, as on Unix.
- Accounts, device lists, single sign-on, redirects, admin checks and the cache: thin wrappers.
