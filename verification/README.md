# Voice server and audio engine: a Dafny model

A voice chat system has three stateful cores: a UDP forwarding server in Go that relays voice datagrams between the
members of a channel, a WebSocket control plane in Go that says who is connected and who sits where, and a native audio
engine in C that captures, queues and mixes samples.  This project models the three cores with the small algorithms
beside them and proves what they promise.

Each core is written down twice: once as the source has it (classes with mutable maps, arrays, index fields and loops)
and once as a state machine of plain functions.  Every method is proved to perform the matching step of the state
machine, and the main results are proved about the state machine over all inputs, all states and all runs.

| file | contents |
|---|---|
| Basics.dfy | options, results, integer widths, voice-plane errors |
| SessionIndex.dfy | the three session indexes and pending tokens as a state machine over lock sections; the index invariants |
| SessionManager.dfy | the session table as it is written, over shared session objects |
| SessionRuns.dfy | whole runs: index invariant, scavenging, single use of tokens |
| KeepAlive.dfy | exactly when a session survives the scavenger; pings |
| Handlers.dfy, Router.dfy | voice, ping and handshake, as functions and as code; indexed forwarding against a flat scan |
| Interleaving.dfy, Delivery.dfy | concurrent voice handlers, one lock section at a time; what they write |
| Moderation.dfy | who is muted or deafened after any run; what that guarantees among concurrent handlers |
| SpeakingNotices.dfy | what the control plane is told about speech |
| PacketCodec.dfy | the 20-byte header, both directions |
| HubState.dfy, HubRuns.dfy | the connection maps as a state machine; links, voice states, occupancy, kicks |
| HubVoice.dfy | what each handler brings about; the marks of voice states; permissions; seats in voice channels |
| HubExamples.dfy | runs in which a step outside the restrictions does its damage |
| ControlHub.dfy | the hub's handlers over mutable maps and connection objects |
| RateLimiter.dfy | the sliding-window limiter with its in-place filter |
| MessageHistory.dfy | cursor pagination and the walk over pages |
| RingBuffer.dfy, SampleFlow.dfy | sample rings; which part of a stream each read gives back |
| PeerTable.dfy, PeerRuns.dfy | peer slots and the client's datagram parser; what is played of one user over a run |
| LoopbackRuns.dfy | what the microphone test plays |
| WireAudio.dfy | a frame of speech from microphone to queue |
| Mixing.dfy, Limiter.dfy | the mixer without chunks; the cubic limiter |
| Hangover.dfy, Capture.dfy | speech detection; downmixing, levels and the microphone as a state machine |
| VoiceEngine.dfy | the audio engine's entry points over arrays and index fields |

`dafny verify dfyconfig.toml` checks the whole project.

How the pieces are modelled:

- A lock section is one atomic step; clocks are parameters.  Calls of the packet writer and of the speaking notifier are
  returned, in order, instead of made; whether the writer fails is a parameter.  An address is its printed form, which is what the code compares.
- Where an index, a queue or a voice state depends on a restriction the code does not enforce, the restriction is
  proved to be exactly the dividing line: the handshake fallback that writes a session's channel directly
  (SessionIndex.WriteChannelExact), a second login on one connection and a move to channel 0 or of a user seated
  elsewhere (HubState.ApplyKeepsLinks), a second connection left behind in voice (HubRuns.StateStaysExact), a move into
  a channel without room (HubRuns.LimitsKeptExactly) or into one that is no voice channel (HubVoice.SeatsHold).  Each has an example run that crosses the line.
- The mixer's floating-point operations are parameters (Mixing.Arithmetic), folded in slot order.  Independence of
  chunk boundaries therefore holds for any rounding, bit for bit; Mixing.EXACT is the instance over the reals, with the
  limiter of Limiter.dfy.  The level in decibels is a parameter of the exact sum of squares.
- Where code and text disagree the model follows the code: the limiter is the cubic with factor 4/27 and its knee at
  1.5 (client/native/libvoice_engine.c:834-843), not the x - x^3/3 that tests/adversarial_voice_engine_test.c:183-197
  expects; the packet buffer has 4096 bytes, not the 1500 of the comment at backend/internal/audio/pool.go:8; the header
  flags are those of backend/internal/audio/protocol.go:56-70, not those of PROJECT.md:92.

## Model

| member | source | states |
|---|---|---|
| `SessionIndex.ApplyKeeps` | backend/internal/audio/session.go:132-404 | every critical section keeps each index entry pointing at the live session it names, and keeps the channel buckets the exact partition of the live sessions if and only if it is not a fallback write that changes a live session's channel |
| `SessionIndex.WriteChannelExact` | backend/internal/audio/router.go:214-217 | the fallback's direct field write keeps the partition exactly when it leaves the channel of a live session as it was |
| `SessionIndex.DropOldKeeps` | backend/internal/audio/session.go:166-174 | replacing a session first leaves nothing but byUser pointing at the old one, and the buckets right for everybody else |
| `SessionIndex.AttachKeeps` | backend/internal/audio/session.go:184-192 | entering a new session after that restores all three indexes |
| `SessionIndex.ReaddressKeeps` | backend/internal/audio/session.go:240-256 | an address change keeps soundness and partition, even when two users share an address |
| `SessionIndex.MoveKeeps` | backend/internal/audio/session.go:281-303 | a move keeps soundness and partition, whether or not the old bucket disappears |
| `SessionIndex.MoveBuckets` | backend/internal/audio/session.go:287-302 | after a move the buckets differ from before only in where the moved user stands |
| `SessionIndex.EvictKeeps` | backend/internal/audio/session.go:318-330 | taking any set of sessions out keeps soundness and partition |
| `SessionIndex.EvictBuckets` | backend/internal/audio/session.go:318-330 | eviction removes from the buckets exactly the evicted users, each from the channel his session names |
| `SessionIndex.EvictOneMore` | backend/internal/audio/session.go:380-393 | deleting stale sessions one by one while iterating equals removing the whole set at once, buckets that empty on the way included |
| `SessionIndex.EvictTwice` | backend/internal/audio/session.go:380-393 | one more turn of the scavenger's loop equals one more member of the evicted set |
| `SessionRuns.IndexInvariant` | backend/internal/audio/session.go:112-404 | over any run from the empty table every index entry is live and right, and the buckets are exactly the partition of byUser as long as every fallback write kept its channel |
| `SessionRuns.FirstChannelChangeBreaks` | backend/internal/audio/router.go:214-217 | the first fallback write that changes a live session's channel loses the partition, and nothing earlier does |
| `SessionRuns.FallbackChannelChangeExample` | backend/internal/audio/router.go:214-217 | a two-step run after which a listener's bucket and his session disagree, so that indexed forwarding and a flat scan pick different recipients |
| `SessionRuns.LiveExactly` | backend/internal/audio/session.go:146-404 | a user is live after a section exactly if the section registered him, or he was live and it neither removed him nor found him idle too long |
| `SessionRuns.ScavengeExact` | backend/internal/audio/session.go:373-404 | a scavenge drops exactly the sessions idle for longer than maxIdle, from all three indexes, and leaves every other session as it was |
| `KeepAlive.StampStep` | backend/internal/audio/session.go:42-101 | a live user's last-seen time after a section is the time of the section if it registers, re-addresses, touches or speaks for the session he then has, and unchanged otherwise |
| `KeepAlive.FreshExactly` | backend/internal/audio/session.go:42-101 | over any run a live user's session carries a stamp of a given age or younger exactly when the operations so far put one on it and registered no older session of his after that |
| `KeepAlive.SurvivesExactly` | backend/internal/audio/session.go:373-404 | over any run a user stays live if and only if he is not removed and every scavenge finds, from the operations alone, a stamp at most maxIdle old |
| `KeepAlive.UndisturbedPing` | backend/internal/audio/router.go:142-156 | a ping handler that nothing interrupts is a ping in the sense of the run theorems |
| `KeepAlive.PingRefreshesSession` | backend/internal/audio/router.go:143-154 | whatever runs between a ping's lookup and its stamp, its user is afterwards as fresh as the ping's arrival, also if the session was replaced in between, unless a session of his stamped before that arrival is registered after the lookup |
| `KeepAlive.KeepsAlive` | backend/internal/audio/session.go:373-404 | a user who is not removed and whose pings arrive never more than maxIdle apart is live in every state of the run, with each ping's lookup and stamp in separate sections, if his registrations do not overtake his pings; the exact condition is SurvivesExactly |
| `KeepAlive.OneReaderKeepsOrder` | backend/internal/audio/server.go:126-150 | one goroutine that handles datagrams one after the other never registers a session stamped before a ping it has already looked up |
| `KeepAlive.KeepsAliveWithOneReader` | backend/internal/audio/server.go:126-167 | as the server runs it, with a single reader, a user who is not removed and whose pings arrive never more than maxIdle apart is never scavenged |
| `KeepAlive.TwoReadersExample` | backend/internal/audio/router.go:221-222 | a second reader, which the server never starts, could handle a ping between the building of a session and its registration, and the user would be scavenged although the ping is recent |
| `SessionRuns.TokenHistory` | backend/internal/audio/session.go:132-195 | the pending tokens are at any time exactly the registrations no later section has voided |
| `SessionRuns.ActivationExactly` | backend/internal/audio/session.go:146-164 | an activation succeeds exactly when its token has an unvoided registration for the same user and channel that has not expired |
| `SessionRuns.ActivatesOncePerRegistration` | backend/internal/audio/session.go:146-164 | between two successful activations of a token there is a new registration of it, over any interleaving |
| `SessionRuns.RevokedTokensStayDead` | backend/internal/audio/session.go:306-343 | after RemoveSession or RevokePending of a user no token of his activates until it is registered for him anew |
| `SessionRuns.ReachableForwarding` | backend/internal/audio/router.go:86-138 | in every reachable state whose fallback writes kept their channel, voice is accepted exactly from an unmuted sender live in the channel and goes to exactly the flat scan's recipients |
| `Handlers.IndexedForwardingIsFlatScan` | tests/e2e/harness/sfu_server.py:613-624 | the bucket lookup with its filters picks exactly the sessions that a loop over all live sessions picks |
| `Handlers.AddressNeverRescues` | backend/internal/audio/router.go:87-94 | the second lookup, by source address, never finds a session for a sender who is missing from byUser |
| `Handlers.AfterVoiceLocal` | backend/internal/audio/router.go:86-138 | a voice datagram changes no session but the sender's and keeps the index invariants |
| `Handlers.VoiceReachesFlatScan` | backend/internal/audio/router.go:86-138 | with matching buckets a datagram is accepted exactly from an unmuted live member of its channel and reaches exactly the members, other than the sender, with an address and not deafened, at their addresses on arrival |
| `Handlers.VoiceRefusals` | backend/internal/audio/router.go:87-110 | a datagram is refused as from an unknown session, for the wrong channel, or for a muted sender, exactly when the sender has no session, has one in another channel, or is live in the channel and muted |
| `Handlers.VoiceRecorded` | backend/internal/audio/router.go:101-117 | a datagram in the right channel moves its sender to its source address, muted or not; an accepted one also records its speaking bit, energy and time; any other leaves the index as it was |
| `Handlers.PingRefreshes` | backend/internal/audio/router.go:142-156 | a ping leaves its target live, stamped now and reachable at the source address, and no other session changed |
| `Handlers.PingReaches` | backend/internal/audio/router.go:144-155 | a ping refreshes its sender's session if he has one, else the one registered at the source address, else nothing |
| `Handlers.HandshakeSeats` | backend/internal/audio/router.go:191-224 | every handshake leaves its sender live in the channel and at the address it names, and keeps the partition exactly when it does not fall back to a session of another channel |
| `Handlers.HandshakeOutcome` | backend/internal/audio/router.go:191-224 | a pending token good for sender and channel, or else a stored one, or else the want of any session, gives the sender a new session at that address with the token's ssrc, unmuted, undeafened, silent and stamped now; otherwise his session keeps its flags; a pending token is used up by success and by expiry alone |
| `Handlers.HandshakeAdmits` | backend/internal/audio/router.go:86-135 | after a handshake that built a session, the sender's next voice datagram in that channel is accepted and he is among the recipients of everybody else's there |
| `Handlers.IssuedTokenAdmits` | backend/internal/audio/session.go:132-195 | a token registered for a user and channel admits him there with its ssrc until it expires |
| `SessionManager.Session.constructor` | backend/internal/audio/session.go:24-40 | a new session object has the fields that HandshakeOutcome describes: unmuted, undeafened, silent, stamped now |
| `SessionManager.Session.SetAddr` | backend/internal/audio/session.go:42-47 | changes address and last-seen time only |
| `SessionManager.Session.Touch` | backend/internal/audio/session.go:50-54 | changes the last-seen time only |
| `SessionManager.Session.SetServerMute` | backend/internal/audio/session.go:57-61 | changes the mute flag only |
| `SessionManager.Session.SetServerDeafen` | backend/internal/audio/session.go:71-75 | changes the deafen flag only |
| `SessionManager.Session.UpdateSpeakingState` | backend/internal/audio/session.go:86-101 | records the new speaking state and reports a change exactly when the bit flips or the level moves by three steps or more |
| `SessionManager.SessionManager.constructor` | backend/internal/audio/session.go:122-129 | the empty table |
| `SessionManager.SessionManager.RegisterPending` | backend/internal/audio/session.go:132-143 | the specified section, soundness kept, with nothing but the token map touched |
| `SessionManager.SessionManager.ActivatePending` | backend/internal/audio/session.go:146-195 | refuses for exactly the specified reasons, dropping the token only when it has expired; otherwise consumes the token and installs a fresh session object in all three indexes |
| `SessionManager.SessionManager.Redeem` | backend/internal/audio/session.go:164-194 | the accepted part, with the ssrc of the consumed token |
| `SessionManager.SessionManager.RegisterSession` | backend/internal/audio/session.go:198-220 | replaces whatever session the user had, in all three indexes, by a new object or one the table already holds |
| `SessionManager.SessionManager.UnlinkPrevious` | backend/internal/audio/session.go:202-209 | removes the previous session's address and bucket entries and keeps an emptied bucket |
| `SessionManager.SessionManager.Enter` | backend/internal/audio/session.go:211-219 | the new object stands in byUser, in byAddr if it has an address, and in its channel's bucket |
| `SessionManager.SessionManager.UpdateAddr` | backend/internal/audio/session.go:240-256 | moves the address entry along with the session; an unknown user changes nothing |
| `SessionManager.SessionManager.SetServerMute` | backend/internal/audio/session.go:259-267 | mutes the live session of the user, if there is one, and changes nothing else |
| `SessionManager.SessionManager.SetServerDeafen` | backend/internal/audio/session.go:270-278 | deafens the live session of the user, if there is one, and changes nothing else |
| `SessionManager.SessionManager.MoveMember` | backend/internal/audio/session.go:281-303 | moves session and bucket entry together; an unknown user changes nothing |
| `SessionManager.SessionManager.Transfer` | backend/internal/audio/session.go:290-302 | leaves the old bucket, dropping it if that empties it, enters the new one and rewrites the channel |
| `SessionManager.SessionManager.RemoveSession` | backend/internal/audio/session.go:306-331 | after it the user has no pending token and no entry in any index, and everybody else is as before |
| `SessionManager.SessionManager.RevokePending` | backend/internal/audio/session.go:334-343 | forgets exactly the user's tokens |
| `SessionManager.SessionManager.DropTokensOf` | backend/internal/audio/session.go:338-342 | the loop that deletes while iterating removes exactly the user's tokens |
| `SessionManager.SessionManager.GetChannelPeers` | backend/internal/audio/session.go:347-363 | lists each member of the bucket with an address, other than the excluded user, exactly once |
| `SessionManager.SessionManager.CleanStaleSessions` | backend/internal/audio/session.go:373-404 | removes exactly the stale sessions and the expired tokens and returns each removed user once |
| `SessionManager.SessionManager.DropStale` | backend/internal/audio/session.go:380-394 | the deleting loop ends in the state with the whole stale set evicted and lists that set without repetition |
| `SessionManager.SessionManager.DropExpiredTokens` | backend/internal/audio/session.go:396-401 | drops exactly the expired tokens |
| `SessionManager.SessionManager.AssignChannel` | backend/internal/audio/router.go:215-215 | the bare field assignment: the buckets stay as they are |
| `Router.Router.HandlePacket` | backend/internal/audio/router.go:58-83 | an undecodable datagram changes and writes nothing; voice is written unchanged, once per recipient of the flat scan; a ping is always answered when there is a writer, and the writer's error is returned; a pong is ignored; a handshake seats its sender |
| `Router.DeliveredExactly` | backend/internal/audio/router.go:125-135 | each target gets one copy of the bytes as received at the address it has |
| `SpeakingNotices.NoticeExactly` | backend/internal/audio/router.go:112-117 | a notice names the packet's channel, sender, speaking bit and energy, and is sent exactly when the bit flips or the energy differs by three or more from the packet before |
| `SpeakingNotices.SpeakingIsShown` | backend/internal/audio/router.go:112-117 | over any run of accepted packets the last notice shows whether the session is speaking |
| `SpeakingNotices.QuietExactly` | backend/internal/audio/session.go:84-101 | no notice at all is sent exactly when the bit stays and no packet moves the energy by more than two, however far it creeps |
| `SpeakingNotices.UnseenRiseExample` | backend/internal/audio/session.go:84-101 | seven packets take the energy from 0 to 14 without a notice |
| `Router.Router.HandleVoice` | backend/internal/audio/router.go:86-138 | the error, the index afterwards, the speaking notice and the writes are those specified; with matching buckets the recipients are exactly the flat scan's, each written once |
| `Router.Router.Admit` | backend/internal/audio/router.go:87-110 | the gates in order; the by-address branch is dead; the address follows the sender even when he is muted |
| `Router.Router.Relay` | backend/internal/audio/router.go:113-135 | an accepted datagram updates the speaking state, notifies on a change, and is written to every peer not deafened |
| `Router.Router.Forward` | backend/internal/audio/router.go:125-135 | one write of the received bytes to each listed peer that is not deafened, none to the others |
| `Router.Router.HandlePing` | backend/internal/audio/router.go:142-188 | refreshes the pinging session, answers with the encoded pong and returns the writer's error |
| `Router.Router.AnswerPing` | backend/internal/audio/router.go:162-187 | the pong is written to the source exactly when it fits the pooled buffer; an error of that write is the result |
| `Router.Router.RefreshTarget` | backend/internal/audio/router.go:143-156 | looks up by user, then by address, and touches or re-addresses the session found |
| `Router.Router.HandleHandshake` | backend/internal/audio/router.go:191-224 | ends in the specified state for each of the four outcomes, with the sender live |
| `Interleaving.StepKeepsWellFormed` | backend/internal/audio/router.go:86-138 | whatever runs between a handler's lock sections, the index stays sound and every session reference a handler holds is to an object that once existed |
| `Interleaving.RunKeepsWellFormed` | backend/internal/audio/router.go:86-138 | the same over any run with any number of concurrent handlers |
| `Interleaving.SilenceLasts` | backend/internal/audio/router.go:86-94 | from a state without the user on, until he is registered again, his later datagrams never get past the two lookups |
| `Interleaving.RemovedSenderIsSilent` | backend/internal/audio/session.go:306-331 | once RemoveSession(u) has run, under any interleaving of lock sections, no datagram of u whose handling starts later is written anywhere until u is registered again |
| `Interleaving.AloneIsAtomic` | backend/internal/audio/router.go:86-138 | the chain of lock sections run without interruption has the index, error and writes of the atomic handler |
| `Delivery.BytesUnchanged` | backend/internal/audio/router.go:125-135 | under any interleaving every datagram written is the one its handler received, byte for byte, and was sent in a section of that handler to the address its target had at that moment |
| `Delivery.InterleavedForwarding` | backend/internal/audio/router.go:119-135 | under any interleaving a handler has written at most once to each session of the peer list it took in one section, and to nobody else; once finished it has written to exactly those it did not pass over |
| `Delivery.SkippedForCause` | backend/internal/audio/router.go:127-134 | a handler passes a session over only in a section of its own that finds the session deafened or without address |
| `Delivery.PeersAreOthers` | backend/internal/audio/session.go:347-363 | a listed peer is another user's session in the channel's bucket and, where buckets match, live in that channel |
| `Delivery.ProgressStep` | backend/internal/audio/router.go:125-135 | each section of the loop over peers writes to, passes over or postpones the next session, and none twice |
| `Moderation.FlagsKept` | backend/internal/audio/session.go:56-81 | a session object's mute and deafen flags change by the moderators' setters alone, registrations, moves and re-addressing included |
| `Moderation.NewObject` | backend/internal/audio/session.go:24-40 | an activated session starts unmuted and undeafened, a registered one as it was handed over |
| `Moderation.FlagExactly` | backend/internal/audio/session.go:56-82 | over any run a session object is muted exactly when a moderator muted it, or it was registered muted, and it has not been unmuted since; likewise for deafened |
| `Moderation.StaysBeforeGate` | backend/internal/audio/router.go:87-110 | a handler of a muted sender that has not passed the mute check stays before it or is refused, and writes nothing |
| `Moderation.StepKeepsMute` | backend/internal/audio/router.go:86-138 | no step but an unmute or a registration ends that |
| `Moderation.MutedSenderIsSilent` | backend/internal/audio/router.go:107-110 | once SetServerMute has muted a user's session, under any interleaving, no handler of his datagrams that had not passed the mute check by then writes anything until that session is unmuted or he registers again |
| `Moderation.StepKeepsDeaf` | backend/internal/audio/router.go:125-135 | no step but undeafening brings a handler to the point of writing to a deafened session |
| `Moderation.DeafenedHearsNothing` | backend/internal/audio/router.go:126-129 | once SetServerDeafen has deafened a session, under any interleaving, nothing is written to it until it is undeafened, except by a handler that had already passed the deafen check for it |
| `PacketCodec.FlagsRoundTrip` | backend/internal/audio/protocol.go:56-70 | unpacking packed flags gives the speaking bit and the low four bits of the energy; packing unpacked flags clears only the reserved bits |
| `PacketCodec.RoundTrip16` | backend/internal/audio/packet.go:75-76 | big-endian 16-bit fields round-trip both ways |
| `PacketCodec.RoundTrip32` | backend/internal/audio/packet.go:73-77 | big-endian 32-bit fields round-trip both ways |
| `PacketCodec.RefusedExactly` | backend/internal/audio/packet.go:50-91 | which test refuses a datagram: length, magic, version, type, payload size and payload length, in that order |
| `PacketCodec.DecodeOfEncoding` | backend/internal/audio/packet.go:50-133 | an encoding decodes exactly when the packet is encodable, to that packet with defaults filled in; the payload survives whole exactly up to 4076 bytes |
| `PacketCodec.EncodeOfDecoding` | backend/internal/audio/packet.go:50-133 | encoding an accepted datagram gives its first 20 + length bytes back with only the reserved flag bits cleared |
| `PacketCodec.PongEchoesPing` | backend/internal/audio/router.go:162-184 | every accepted ping has a pong that fits the buffer, decodes, and echoes channel, sequence, timestamp and payload |
| `PacketCodec.Packet.EncodeInto` | backend/internal/audio/packet.go:103-133 | writes the encoding and nothing past it, or nothing at all when the buffer is too short |
| `PacketCodec.Packet.PutHeader` | backend/internal/audio/packet.go:109-126 | the 20 header bytes, with defaults for a zero magic and version |
| `PacketCodec.DecodeInto` | backend/internal/audio/packet.go:50-91 | the error is the first failing test; a refused datagram overwrites exactly the fields parsed before that test |
| `PacketCodec.ParseHeader` | backend/internal/audio/packet.go:70-77 | parses bytes 3 to 19 into their fields |
| `HubState.ApplyKeepsLinks` | backend/internal/control/handler.go:458-864 | a handler keeps connections, user sets, channel sets and voice states consistent if and only if it is neither a second authentication as someone else nor a move that breaks its two conditions |
| `HubState.AuthenticateExact` | backend/internal/control/handler.go:188-203 | an authentication keeps the links exactly when the connection was not authenticated as another user before |
| `HubState.MoveExact` | backend/internal/control/handler.go:685-709 | a move keeps the links exactly when the target channel id is positive and every connection of the user is out of voice, in the voice state's channel, or already at the destination |
| `HubState.JoinKeepsMembers` | backend/internal/control/handler.go:500-512 | a join keeps user sets and channel membership right when it switches channels |
| `HubState.JoinKeepsStates` | backend/internal/control/handler.go:514-524 | after a join every voice state names a channel some connection of its user sits in |
| `HubState.LeaveKeeps` | backend/internal/control/handler.go:556-566 | a leave keeps all links |
| `HubState.MarkKeeps` | backend/internal/control/handler.go:590-603 | setting a voice state's marks keeps all links |
| `HubState.DisconnectKeeps` | backend/internal/control/hub.go:133-176 | a disconnect keeps all links, also when other doomed connections are already out of their channel sets |
| `HubState.KickKeeps` | backend/internal/control/handler.go:805-841 | a completed kick keeps all links, however many connections the user had |
| `HubState.DisconnectAllKeeps` | backend/internal/control/handler.go:837-841 | the loop over disconnects removes exactly the listed connections and repairs the links the first section broke |
| `HubState.KickLeavesNothing` | backend/internal/control/handler.go:805-841 | after a kick of a user other than 1 none of his connections is in clients, userClients or any channel set, and he has no voice state |
| `HubState.MovedOneMore` | backend/internal/control/handler.go:697-707 | one turn of the move loop equals one more member of the moved set |
| `HubRuns.LinksHold` | backend/internal/control/handler.go:458-864 | in every state of a run whose steps meet the conditions the links hold, and a registered client is in voiceChannels[ch] exactly when its active voice channel is ch > 0 |
| `HubRuns.StateStaysExact` | backend/internal/control/handler.go:514-566 | a link-keeping handler keeps "has a voice state exactly if a connection is in voice, in the same channel" if and only if it leaves no other connection of that user behind in voice |
| `HubRuns.SingleConnectionStatesExact` | backend/internal/control/handler.go:483-566 | for a user with a single connection the voice state is exact in every state of every run |
| `HubRuns.OccupancyStep` | backend/internal/control/handler.go:489-512 | a move raises its destination by at most the number of the target's connections; no other handler raises a channel that is full |
| `HubRuns.LimitKeptExactly` | backend/internal/control/handler.go:489-512 | a handler keeps a channel's limit if and only if it is not an accepted move into it whose connections do not all fit |
| `HubRuns.LimitsKeptExactly` | backend/internal/control/handler.go:685-709 | the limits of all channels together are kept if and only if a move finds room at its destination |
| `HubRuns.OccupancyBounded` | backend/internal/control/handler.go:489-498 | over any run, moves included, a channel holds no more connections than its limit, 0 read as 15, while accepted moves into it find room, and the first that does not is the step that breaks it |
| `HubRuns.LimitsHold` | backend/internal/control/handler.go:489-498 | the same for all channels at once |
| `HubExamples.MoveIntoFullChannelExample` | backend/internal/control/handler.go:693-708 | a run whose last step moves a user into a full channel: two connections in a channel for one, all links intact |
| `HubExamples.MoveOutOfVoiceExample` | backend/internal/control/handler.go:693-708 | a run whose last step moves a user into a channel that is no voice channel, with all links intact |
| `HubExamples.SecondLoginExample` | backend/internal/control/handler.go:188-203 | a run in which a second login as another user leaves the connection in the first user's set |
| `HubExamples.MoveToNowhereExample` | backend/internal/control/handler.go:682-708 | a run in which a move to channel 0 leaves a set for no channel and a voice state |
| `HubExamples.MoveOfScatteredUserExample` | backend/internal/control/handler.go:693-708 | a run in which a connection in a third channel is in two channel sets after a move |
| `HubExamples.LeaveBehindExample` | backend/internal/control/handler.go:556-566 | a run in which one of two connections leaves and takes the voice state of both |
| `HubRuns.OnlyEntering` | backend/internal/control/handler.go:485-512 | a handler adds to a channel at most the joining connection, or the moved user's |
| `HubRuns.RemoveSessionForgets` | backend/internal/audio/session.go:306-331 | afterwards the user has no session, no address entry, no pending token and, with matching buckets, no bucket entry |
| `HubRuns.RemoveTwice` | backend/internal/control/handler.go:833-841 | removing the session again for each connection in voice changes nothing more |
| `HubRuns.KickSilences` | backend/internal/control/handler.go:833-841 | the removals of a kick, first one and then one per connection in voice, leave the target no session and no token and touch no one else |
| `HubVoice.MarksStep` | backend/internal/control/handler.go:458-864 | a handler that does not write a part of a voice state (the self flags and speaking mark, the server mute, the server deafening) leaves that part alone; an accepted join takes its own two flags and clears the rest |
| `HubVoice.MarksOfLatest` | backend/internal/control/handler.go:515-524 | over any run a user's voice state, if he has one, shows the self flags of the latest accepted join or set_voice_state by a connection of his, and of each server flag what the latest permitted moderator set since his latest accepted join, or else nothing |
| `HubVoice.JoinTakesSeat` | backend/internal/control/handler.go:500-524 | an accepted join seats its connection in the channel and nowhere else, sets the user's voice state to it, and moves nobody else |
| `HubVoice.LeaveVacatesSeat` | backend/internal/control/handler.go:556-570 | a leave vacates the seat and drops the voice state if there was a seat, and moves nobody else |
| `HubVoice.MoveBringsTarget` | backend/internal/control/handler.go:685-709 | an accepted move brings all of the target's connections and his voice state to the channel, and nobody else |
| `HubVoice.DisconnectForgets` | backend/internal/control/hub.go:133-176 | a disconnect closes the connection and takes it out of every set, and moves nobody else |
| `HubVoice.KickSparesOthers` | backend/internal/control/handler.go:805-841 | a kick touches no other user's connections, seats and voice state |
| `HubVoice.EntryMakesClient` | backend/internal/control/handler.go:188-203 | a new connection is open and nobody's; a login makes it the user's beside those he has, and moves nobody |
| `HubVoice.RefusedChangesNothing` | backend/internal/control/handler.go:458-864 | without permission, and on a kick of the creator, nothing changes and the reply says why |
| `HubVoice.JoinAcceptedExactly` | backend/internal/control/handler.go:459-498 | a join is accepted exactly with permission, into a voice channel, by a connection that is still open and already seated there or finds room |
| `HubVoice.MoveAcceptedExactly` | backend/internal/control/handler.go:677-691 | a move is accepted exactly with permission and for a user who is in voice |
| `HubVoice.SeatsHold` | backend/internal/control/handler.go:676-709 | over any run seats stand in voice channels until the first accepted move elsewhere, which is the step that breaks it |
| `HubVoice.DisconnectSilences` | backend/internal/control/hub.go:178-183 | a connection that drops out of voice takes its user's audio session and tokens along; any other leaves the audio plane alone |
| `ControlHub.Hub.Connect` | backend/internal/control/client.go:211-223 | a new, open connection is registered |
| `ControlHub.Hub.Authenticate` | backend/internal/control/handler.go:188-203 | sets the connection's identity and enters it in the user's set; an earlier entry under another user stays |
| `ControlHub.Hub.JoinVoice` | backend/internal/control/handler.go:458-543 | answers with exactly the specified error, silently when the connection is gone; an accepted join seats the connection and records the voice state, and is answered with success and a registered token or, if none could be issued, with an internal error |
| `ControlHub.Hub.Verdict` | backend/internal/control/handler.go:459-498 | the tests in order, capacity last; a connection already inside is never refused as too many |
| `ControlHub.Hub.Sit` | backend/internal/control/handler.go:500-524 | switching leaves the old channel set, entering creates the new one if need be |
| `ControlHub.Hub.LeaveVoice` | backend/internal/control/handler.go:556-570 | vacates the seat and always removes the audio session |
| `ControlHub.Hub.SetVoiceState` | backend/internal/control/handler.go:590-603 | the self flags and the speaking mark of the user's voice state, if he has one, become those sent |
| `ControlHub.Hub.SetServerMute` | backend/internal/control/handler.go:733-750 | with permission the target's voice state is marked and his audio session muted, each as far as it exists; without, nothing changes |
| `ControlHub.Hub.SetServerDeafen` | backend/internal/control/handler.go:763-780 | the same for deafening |
| `ControlHub.Hub.Stand` | backend/internal/control/handler.go:557-566 | out of voice it changes nothing |
| `ControlHub.Hub.UnregisterClient` | backend/internal/control/hub.go:133-183 | the specified disconnect; a second call for the same connection does nothing |
| `ControlHub.Hub.Drop` | backend/internal/control/hub.go:140-176 | unregisters and closes the connection and takes an authenticated one out of all maps |
| `ControlHub.Hub.Unlist` | backend/internal/control/hub.go:152-174 | prunes emptied user and channel sets and drops the voice state when the connection was in voice or was the last |
| `ControlHub.Hub.MoveMember` | backend/internal/control/handler.go:676-713 | refuses a target without a voice state; otherwise moves all his connections and his audio session |
| `ControlHub.Hub.Relocate` | backend/internal/control/handler.go:693-708 | voice state and all connections name the new channel |
| `ControlHub.Hub.BringAll` | backend/internal/control/handler.go:698-707 | the loop over the map of connections, in any order, reaches the state in which all of them have moved |
| `ControlHub.Hub.KickMember` | backend/internal/control/handler.go:793-841 | refuses without permission and for user 1; otherwise clears hub and audio plane as specified |
| `ControlHub.Hub.Evacuate` | backend/internal/control/handler.go:820-830 | drops the voice state and takes the target's connections out of its channel |
| `ControlHub.Hub.CloseAll` | backend/internal/control/handler.go:837-841 | unregisters the listed connections one after the other |
| `ControlHub.Hub.Connections` | backend/internal/control/handler.go:814-819 | lists exactly the target's connections |
| `ControlHub.Client.Close` | backend/internal/control/client.go:200-208 | leaves the connection closed |
| `RateLimiter.Client.AllowMessage` | backend/internal/control/client.go:82-103 | filtering in place over the same backing array keeps exactly the stamps of the last second, in order, and admits the message if fewer than ten remain |
| `RateLimiter.KeptIsEnough` | backend/internal/control/client.go:89-95 | forgetting old stamps is unobservable: from the latest cutoff on, the kept stamps and all accepted ones look alike |
| `RateLimiter.RefusedExactly` | backend/internal/control/client.go:97-102 | for a nondecreasing clock a message is refused exactly when the tenth latest accepted one is less than a second old |
| `RateLimiter.AcceptedSpacing` | backend/internal/control/client.go:82-103 | the tenth accepted message after any accepted one comes at least a second later |
| `MessageHistory.GetMessages` | backend/internal/storage/sqlite_repo.go:459-527 | returns the newest page before the cursor in chronological order, and whether older matches were cut off; an unknown channel is an error |
| `MessageHistory.Reversed` | backend/internal/storage/sqlite_repo.go:520-524 | filling a slice from the back reverses the list |
| `MessageHistory.PageFromNewest` | backend/internal/storage/sqlite_repo.go:470-524 | fetching one row more than a page, cutting it off and reversing gives the tail of the ascending selection |
| `MessageHistory.PageSize` | backend/internal/storage/sqlite_repo.go:460-524 | a page has the size asked for, from 1 to 100, or else 50, fewer only if there are no more, and says whether there are |
| `MessageHistory.NewestIsTail` | backend/internal/storage/sqlite_repo.go:474-496 | the limited descending query is the end of the ascending selection, reversed |
| `MessageHistory.SelectFilters` | backend/internal/storage/sqlite_repo.go:474-496 | a row is selected exactly when it is in the channel and below the cursor |
| `MessageHistory.CursorCuts` | backend/internal/storage/sqlite_repo.go:484-496 | the id of a selected message, used as cursor, selects exactly the messages before it |
| `MessageHistory.GrowthIsInvisible` | backend/internal/storage/sqlite_repo.go:484-496 | messages inserted later never show up below a cursor taken from an existing one |
| `MessageHistory.NextPage` | client/lib/state/chat_notifier.dart:77-99 | the next page starts exactly where this one ended, whatever was inserted meanwhile |
| `MessageHistory.WalkIsSelection` | client/lib/state/chat_notifier.dart:73-105 | following first ids until there is no more ends, and its pages joined are the selection at its start |
| `MessageHistory.WalkYieldsEverythingOnce` | client/lib/state/chat_notifier.dart:73-105 | the walk yields every message the channel had at its start exactly once, in id order, and nothing else, for any page sizes and any insertions on the way |
| `Limiter.SoftOdd` | client/native/libvoice_engine.c:835-843 | the soft curve is odd |
| `Limiter.CubicSlope` | client/native/libvoice_engine.c:841-842 | between the knees the cubic's slope lies between 0 and 1 |
| `Limiter.SoftIsClampedCubic` | client/native/libvoice_engine.c:835-843 | the three branches are one cubic of the clamped argument, so they meet at both knees |
| `Limiter.SoftMonotoneLipschitz` | client/native/libvoice_engine.c:835-843 | the curve is monotone and 1-Lipschitz everywhere, hence continuous at the knees |
| `Limiter.SoftBounded` | client/native/libvoice_engine.c:835-843 | the curve stays within [-1, 1] |
| `Limiter.LimitCurve` | client/native/libvoice_engine.c:833-845 | a sum of size a up to 49152 gives 32767 * (x - 4x^3/27) with x = a / 32768, rounded toward zero, and 32767 beyond, with the sign of the sum |
| `Limiter.LimitShape` | client/native/libvoice_engine.c:835-844 | on sums the limiter is odd and monotone, moves at most one step more than the sum does, and saturates from 1.5 times full scale on |
| `RingBuffer.Ring.Push` | client/native/libvoice_engine.c:652-653 | the ring then holds one sample more, or nothing when the write index ran into the read index |
| `RingBuffer.Ring.PushAll` | client/native/libvoice_engine.c:651-654 | the same for a batch |
| `RingBuffer.Ring.Pop` | client/native/libvoice_engine.c:826-827 | takes the oldest unread sample |
| `RingBuffer.Ring.Available` | client/native/libvoice_engine.c:700-702 | the index difference, going round the end, is the number of unread samples |
| `RingBuffer.Ring.Reset` | client/native/libvoice_engine.c:636-637 | empties the ring |
| `RingBuffer.PushedAllExactly` | client/native/libvoice_engine.c:651-654 | after any batch exactly the newest samples are left, their number taken modulo 32768 |
| `RingBuffer.UnreadIsLatestPushed` | client/native/libvoice_engine.c:651-654 | after any run the unread samples are the last ones pushed, in push order, (pushes - reads) mod 32768 of them, and each overrun has cost exactly 32768 samples |
| `SampleFlow.QueueIsLatest` | client/native/libvoice_engine.c:651-654 | over any run of written and read batches the unread samples of a ring are the latest written ones |
| `SampleFlow.PositionStep` | client/native/libvoice_engine.c:698-710 | a read moves the read position on by what it takes; a written batch leaves it, or skips whole multiples of 32768 exactly when it found no room |
| `SampleFlow.ReadIsNextPiece` | client/native/libvoice_engine.c:823-829 | a read gives the samples of the stream between the read position before and after it |
| `SampleFlow.PiecesInOrder` | client/native/libvoice_engine.c:823-829 | of two reads the earlier ends in the stream before the later begins: nothing is repeated or reordered |
| `SampleFlow.LostExactly` | client/native/libvoice_engine.c:651-654 | what is written and never read is a whole multiple of 32768 samples, and none exactly when every batch found room |
| `SampleFlow.PlayedExactly` | client/native/libvoice_engine.c:823-829 | all that was read is one gapless stretch of the stream exactly when every batch found room |
| `PeerTable.ParsersAgree` | client/native/libvoice_engine.c:598-619 | with a non-zero sender the client accepts whatever the server's decoder accepts, with the same sender, speaking bit, energy and payload length, and misses the server's test exactly by version, type and size limit |
| `PeerTable.AnonymousDropped` | client/native/libvoice_engine.c:616-616 | a datagram without a sender is dropped whatever else it says |
| `PeerTable.SamplesExactly` | client/native/libvoice_engine.c:644-654 | an accepted packet carries min(payloadLen / 2, 960) samples, sample s being the signed 16-bit value of payload bytes 2s (low) and 2s + 1 (high) |
| `WireAudio.FrameHeardUnchanged` | client/native/libvoice_engine.c:598-654 | a captured frame written out as PCM bytes, encoded, forwarded byte for byte and fed is queued as the same samples, with its speaking mark and energy |
| `PeerTable.FindUser` | client/native/libvoice_engine.c:624-629 | the first slot from a given one on that is active for the user; none before it is |
| `PeerTable.FindFree` | client/native/libvoice_engine.c:631-641 | the first free slot from a given one on; all before it are taken |
| `PeerTable.PlaceKeeps` | client/native/libvoice_engine.c:644-655 | writing to the slot found for a user keeps active slots distinct |
| `PeerTable.ApplyKeepsTable` | client/native/libvoice_engine.c:527-850 | every operation keeps active user slots distinct and non-zero, slot 0 for the loopback only, and every queue shorter than the ring |
| `PeerTable.TableHolds` | client/native/libvoice_engine.c:527-850 | the same in every state of every run |
| `PeerTable.SlotAndVolumeKept` | client/native/libvoice_engine.c:527-565 | from the moment a user has a slot he keeps that slot, and the volume last set for him, until a clear |
| `PeerTable.SpeakingStep` | client/native/libvoice_engine.c:645-645 | a user's speaking mark is the flag of his latest packet |
| `PeerTable.FeedReaches` | client/native/libvoice_engine.c:622-656 | a packet is heard exactly when its sender has a slot or one is free; slot 0 and other users' slots stay as they are |
| `PeerRuns.KeptStep` | client/native/libvoice_engine.c:527-850 | every operation keeps a user's slot, if he has one, holding the end of what he sent, and if he has none he has sent nothing or every slot is taken |
| `PeerRuns.StreamKept` | client/native/libvoice_engine.c:598-661 | the same in every state of every run |
| `PeerRuns.SlotFlows` | client/native/libvoice_engine.c:622-656 | while a user keeps his slot nothing touches its queue but his packets and the mixes, whatever other users, volumes and switches do |
| `PeerRuns.TenureStartsAtZero` | client/native/libvoice_engine.c:630-642 | a user gets his slot before anything he sent since the last clear is lost |
| `PeerRuns.MixAddsPiece` | client/native/libvoice_engine.c:819-830 | a mix adds, for a user's slot, the samples of the piece it takes from the queue, scaled by his volume, and past them nothing |
| `PeerRuns.PlayedInOrder` | client/native/libvoice_engine.c:805-850 | what the mixes play of a user while he keeps his slot are successive pieces of the samples he sent, each beginning no earlier than the one before it ends |
| `PeerRuns.PlayedGapless` | client/native/libvoice_engine.c:651-654 | what a user loses is a whole multiple of 32768 samples, and he is played without a gap exactly when each of his packets found room in the slot's ring |
| `PeerRuns.NewSlot` | client/native/libvoice_engine.c:631-641 | a slot newly given to a user holds exactly what the operation brought from him, at the volume set or at 1 |
| `LoopbackRuns.StreamKept` | client/native/libvoice_engine.c:774-785 | in every state of a run slot 0 holds the end of the frames captured during the running microphone test, at full volume, and nothing outside one |
| `LoopbackRuns.TestPlaysFrames` | client/native/libvoice_engine.c:774-850 | during the test each mix plays at full volume the next piece of the captured frames, never overlapping and never swapped |
| `Mixing.SumOfDrained` | client/native/libvoice_engine.c:819-831 | after a samples were consumed the sum for sample k is what it was for sample a + k |
| `Mixing.MixSplits` | client/native/libvoice_engine.c:814-849 | mixing a + b samples is mixing a and then b, in output and in queues, so no chunk boundary shows |
| `Mixing.DrainExactly` | client/native/libvoice_engine.c:819-830 | every audible queue loses exactly its first min(n, length) samples and every other slot is untouched |
| `Mixing.DrainedTwice` | client/native/libvoice_engine.c:819-830 | consuming a and then b samples is consuming a + b |
| `Mixing.PastTheEndIsSilence` | client/native/libvoice_engine.c:825-829 | past the end of every audible queue the sum is zero |
| `Mixing.SumIsTotal` | client/native/libvoice_engine.c:819-831 | with exact arithmetic the accumulated sum is the sum over audible slots of volume times sample |
| `Mixing.MixOnCurve` | client/native/libvoice_engine.c:819-845 | with exact arithmetic every mixed sample lies on the limiter's curve over that weighted sum |
| `Mixing.ExactMixInRange` | client/native/libvoice_engine.c:833-845 | with exact arithmetic every mixed sample is the limited slot-ordered sum and lies within [-32767, 32767] |
| `Mixing.InterleavedAt` | client/native/libvoice_engine.c:184-189 | channel c of frame f carries mono sample f |
| `Mixing.InterleavedMixSplits` | client/native/libvoice_engine.c:180-193 | fanning out chunk by chunk gives the device buffer of one mono mix of the whole request |
| `Hangover.CounterExactly` | client/native/libvoice_engine.c:743-754 | the counter is the hangover time less 20 ms per quiet frame since the last loud one, or zero |
| `Hangover.SpeakingIsWindow` | client/native/libvoice_engine.c:743-754 | a frame the detector looks at is speech exactly when it, or one of the previous floor(hangover / 20) such frames, is loud with no underflow in between |
| `Capture.AverageBetween` | client/native/libvoice_engine.c:144-150 | the truncated average lies between the smallest and the largest channel, so the two clamps never fire |
| `Capture.SumAdds` | client/native/libvoice_engine.c:144-148 | the channel sum adds up over any division of a frame, down to single channels |
| `Capture.AverageExactly` | client/native/libvoice_engine.c:149-151 | the average is the sum over the number of channels, rounded toward zero |
| `Capture.DownmixAt` | client/native/libvoice_engine.c:142-153 | the downmix has one sample per device frame: that frame's average |
| `Capture.DownmixOfInterleaved` | client/native/libvoice_engine.c:142-153 | downmixing what playback fanned out to any number of channels gives the mono samples back |
| `Capture.EnergyShape` | client/native/libvoice_engine.c:759-763 | the energy fits four bits and grows with the level, from 0 below -58 dB to 15 from -2 dB on |
| `Capture.EnergyNearest` | client/native/libvoice_engine.c:759-763 | between -60 and 0 dB the energy is the level above -60 in steps of 4 dB, to the nearest |
| `Capture.PowerAdds` | client/native/libvoice_engine.c:727-731 | the power of a frame adds up over any division of it |
| `Capture.PowerIsZero` | client/native/libvoice_engine.c:727-735 | the power is zero exactly for an all-zero frame |
| `Capture.LevelReaches` | client/native/libvoice_engine.c:733-739 | the level reaches a threshold above -90 and up to 0 dB exactly when the frame has power and the curve puts it there |
| `Capture.AnswerExactly` | client/native/libvoice_engine.c:675-763 | a request is answered by the next 960 samples exactly when the microphone is open, unmuted and has them, and by silence otherwise; the reported level reaches a threshold exactly when those samples' power does |
| `Capture.CounterFollows` | client/native/libvoice_engine.c:675-757 | along any run of callbacks, requests and switch changes the counter is the one the frame events determine |
| `Capture.SpeechExactly` | client/native/libvoice_engine.c:675-757 | over any run a frame is marked as speech exactly when it carries hardware samples and the key is down or, with voice activation, a frame whose own samples reach the threshold lies within the hangover window with no underflow since |
| `Capture.SwitchStays` | client/native/libvoice_engine.c:507-525 | a switch of the microphone stays as it was last set, whatever is delivered and requested |
| `Capture.MutedMicIsSilent` | client/native/libvoice_engine.c:675-690 | from a mute to the next unmute every request is answered by zero samples not marked as speech |
| `Capture.MicFlows` | client/native/libvoice_engine.c:134-155 | over any run nothing touches the capture ring but the callbacks while capturing and the voiced frames |
| `Capture.UnreadIsLatestDelivered` | client/native/libvoice_engine.c:134-155 | the unread samples are always the latest ones delivered while capturing |
| `Capture.FrameIsNextPiece` | client/native/libvoice_engine.c:704-710 | a voiced frame is the next 960 samples of the delivered stream |
| `Capture.FramesInOrder` | client/native/libvoice_engine.c:704-710 | of two voiced frames the earlier ends in the stream before the later begins: nothing is repeated or reordered |
| `Capture.FramesGapless` | client/native/libvoice_engine.c:698-710 | the voiced frames laid end to end are everything delivered but the unread samples exactly when every callback found room in the ring; otherwise whole multiples of 32768 samples are missing |
| `VoiceEngine.VoiceEngine.constructor` | client/native/libvoice_engine.c:326-361 | blank slots, empty rings, default switches; a zero hangover time becomes 200 ms |
| `VoiceEngine.PeerStream.MixInto` | client/native/libvoice_engine.c:823-830 | adds the queued samples of one peer to the accumulator and consumes exactly those |
| `VoiceEngine.VoiceEngine.SumChunk` | client/native/libvoice_engine.c:816-831 | the nested loops leave in the accumulator the slot-ordered sums over all audible peers and drain their queues |
| `VoiceEngine.VoiceEngine.SumPeer` | client/native/libvoice_engine.c:819-830 | inactive peers, and slot 0 without loopback, are left alone |
| `VoiceEngine.VoiceEngine.LimitChunk` | client/native/libvoice_engine.c:833-845 | the limiter loop turns a chunk's sums into the mix at its offset |
| `VoiceEngine.VoiceEngine.MixChunk` | client/native/libvoice_engine.c:814-849 | one turn of the chunk loop extends the mix by the chunk and changes nothing after it |
| `VoiceEngine.VoiceEngine.MixAudioStreams` | client/native/libvoice_engine.c:805-850 | for any length the output is the per-sample mix of the queues as they were, or silence when deafened, and the queues lose exactly what was mixed |
| `VoiceEngine.VoiceEngine.Playback` | client/native/libvoice_engine.c:159-196 | every channel of every frame carries the sample of one mono mix of the whole request; silence, with the queues kept, when not playing or deafened |
| `VoiceEngine.VoiceEngine.Fan` | client/native/libvoice_engine.c:176-193 | the multi-channel loop over the temporary buffer ends in the fanned-out mix |
| `VoiceEngine.VoiceEngine.Spread` | client/native/libvoice_engine.c:184-189 | copies a chunk to every channel behind what is already written |
| `VoiceEngine.VoiceEngine.SetPlaying` | client/native/libvoice_engine.c:495-505 | switches playback and nothing of the microphone |
| `VoiceEngine.VoiceEngine.SetLocalDeafen` | client/native/libvoice_engine.c:523-525 | switches local deafening and nothing of the microphone |
| `VoiceEngine.VoiceEngine.FindSlot` | client/native/libvoice_engine.c:624-641 | the two searches find the user's slot, or else the first free one |
| `VoiceEngine.VoiceEngine.FeedInboundPacket` | client/native/libvoice_engine.c:598-661 | the table changes as specified by the parsed packet, and not at all when it does not parse or no slot is free; the speaking callback is told of every packet that parses |
| `VoiceEngine.VoiceEngine.Deliver` | client/native/libvoice_engine.c:622-656 | a parsed packet's samples are queued in its sender's slot, claimed if need be |
| `VoiceEngine.VoiceEngine.Claim` | client/native/libvoice_engine.c:632-640 | a free slot is taken over with volume and empty indices, a used one kept |
| `VoiceEngine.VoiceEngine.SetUserVolume` | client/native/libvoice_engine.c:527-551 | sets the volume in the user's slot, claiming a free one if he has none; user 0 is ignored |
| `VoiceEngine.VoiceEngine.ClearPeers` | client/native/libvoice_engine.c:553-565 | all slots blank, loopback off |
| `VoiceEngine.VoiceEngine.SetMicTestLoopback` | client/native/libvoice_engine.c:567-588 | on starts capture and playback; off blanks slot 0 |
| `VoiceEngine.VoiceEngine.CaptureCallback` | client/native/libvoice_engine.c:128-156 | while capturing, the ring gets one downmixed sample per device frame |
| `VoiceEngine.VoiceEngine.DownmixInto` | client/native/libvoice_engine.c:142-153 | the callback's loop pushes the downmix of the whole buffer |
| `VoiceEngine.VoiceEngine.Average` | client/native/libvoice_engine.c:144-151 | the inner loop sums the channels of one frame and averages them |
| `VoiceEngine.VoiceEngine.CaptureFrame` | client/native/libvoice_engine.c:663-788 | writes 1920 bytes or refuses a short buffer; silence when idle, muted or short of samples, the last also clearing the counter; else the next frame with its level, speech mark and energy, looped back to slot 0 during the microphone test |
| `VoiceEngine.VoiceEngine.AnswerSilence` | client/native/libvoice_engine.c:675-724 | idle, muted or short of samples: silence at -90 dB, and only the last ends the hangover |
| `VoiceEngine.VoiceEngine.AnswerVoice` | client/native/libvoice_engine.c:704-785 | a voiced frame with its level, mark and energy, looped back during the microphone test |
| `VoiceEngine.VoiceEngine.Analyse` | client/native/libvoice_engine.c:704-763 | the frame, level, speech mark, energy and counter are those specified |
| `VoiceEngine.VoiceEngine.PopFrame` | client/native/libvoice_engine.c:704-709 | moves the oldest 960 samples to the buffer |
| `VoiceEngine.VoiceEngine.Power` | client/native/libvoice_engine.c:727-731 | the sum of squares of the frame |
| `VoiceEngine.VoiceEngine.Detect` | client/native/libvoice_engine.c:741-757 | one step of the hangover counter, or the key |
| `VoiceEngine.VoiceEngine.LoopBack` | client/native/libvoice_engine.c:774-785 | the frame goes to slot 0 under the loopback's user id |

## Left out

- Devices, device enumeration, mutex setup, sockets, WebSocket pumps and tickers: foreign calls and I/O.
- JSON envelopes, parameter extraction, broadcasts and response bodies: plumbing; permission tests are booleans.
- Password hashing, token generation and trimming, SQL text, migrations and time parsing: library wrappers; what they answer is a parameter.
- Single use across both token stores: the stored-token validator's answer is a parameter, so single use is proved for the in-memory store only; the code does not keep it across both (backend/internal/audio/router.go:195-210).
- Completeness of byAddr: the code does not keep it when two users share an address.
- Router.Router.HandleHandshake: the stored token is consumed by the validator, whose answer is a parameter, so that its single use is not stated.
- KeepAlive.KeepsAlive: a registration of the user himself whose session was stamped before one of his pings and registered after its lookup is excluded; the single reader of the server makes none (KeepAlive.OneReaderKeepsOrder), and KeepAlive.SurvivesExactly covers them.
- Router.Router.HandlePacket: the source address is never nil, as for every datagram read from a socket, and the pooled packet and buffer are new objects.
- Interleaving.AloneIsAtomic: the unlocked reads of a session's channel and address count as atomic steps; the memory model of racing accesses is not modelled.
- PacketCodec.DecodeInto: the payload is a value and not a slice sharing the datagram's memory.
- HubState.ApplyKeepsLinks: each handler is one atomic step on a registered connection; broadcasts between its critical sections are not steps.
- ControlHub.Hub.JoinVoice: user name and time of a voice state are left out, and states are values in the map, not shared objects; the audio router is always attached.
- ControlHub.Hub.UnregisterClient: the departure broadcasts are not modelled.
- ControlHub.Client.Close: closing the send channel and the socket is not modelled.
- ControlHub.Hub.KickMember: deleting stored login sessions and voice tokens, and the close frame, are not modelled.
- HubRuns.OccupancyBounded: channel limits do not change during a run and are not negative.
- Agreement between a hub's channel and an audio session's channel between join and handshake, and server mute surviving a new registration: the code does not keep these.
- RateLimiter.Client.AllowMessage: time is an integer number of nanoseconds.
- MessageHistory.GetMessages: the result columns name and time of the sender are left out; a failing query is not modelled.
- Mixing.ExactMixInRange: exact IEEE rounding of the sum and the limiter is not modelled; the bound is for real arithmetic.
- Limiter.LimitCurve: real arithmetic, not the rounding of float32.
- Limiter.LimitShape: real arithmetic, not the rounding of float32.
- Capture.EnergyShape: real arithmetic, not the rounding of float32.
- Capture.LevelReaches: the square root and logarithm are one parameter, a function of the sum of squares; a frame's energy is computed over the reals.
- VoiceEngine.VoiceEngine.constructor: a second initialisation of a running engine, which keeps the switches and the hangover counter, is not modelled; neither is engine shutdown.
- VoiceEngine.VoiceEngine.CaptureCallback: the sum over channels does not wrap, which takes more than 65536 channels.
- VoiceEngine.VoiceEngine.CaptureFrame: null out-parameters and the statistics counters are not modelled.
- VoiceEngine.VoiceEngine.SetMicTestLoopback: starting and stopping the devices themselves is not modelled.
- Entry points of the engine do not overlap: each is one atomic step, although capture_frame reads the loopback switch outside the lock (client/native/libvoice_engine.c:774-775), so that switching the loopback off in between would leave slot 0 in use.
- VoiceEngine.VoiceEngine.FeedInboundPacket: the statistics counter is not modelled; samples are little-endian, as on every target the client is built for.
- The sample rings of distinct peers are distinct objects where the source has distinct static arrays.
- sync.Pool reuse, the Flutter interface, the platform runners, build scripts and test servers.
