# A verified model of the mesh VPN

This project models five parts of the VPN and proves what they guarantee:

- the UDP relay with its challenge/response registration, and the magic socket that talks to it;
- the STUN codec;
- the endpoint manager that moves peers between direct paths and the relay;
- the reconcilers that align the WireGuard engine and the system's routes with the network map,
  and the way of a route from the machine that offers it to the machines that use it;
- the coordination store: addresses, enrolment keys, invitations, token rotation.

Each object the program updates in place is a class with the same fields. Its methods follow the
source's branches and are proved against a step function on those fields. What an operation keeps
over whole runs is then proved about the step functions, for every run.

Every lemma on which Dafny would try induction by itself carries `{:induction false}`, so no proof
rests on a hypothesis that Dafny makes up. Keep it that way: in Dafny 4.11 such a hypothesis
describes every sequence, also those of other element types, and can contradict itself when a
clause mentions a field of a sequence's element.

## Files

| file | content |
|---|---|
| `Net.dfy` | bytes, addresses, big-endian integers, exclusive or, buffer copies |
| `NetMap.dfy`, `Prefixes.dfy` | the network map; IP prefixes and their canonical form |
| `RelayFrames.dfy`, `RelayServer.dfy` | relay wire format and proof of possession; the relay server |
| `RelayHistory.dfy` | the relay's registrations read off its traffic |
| `RelayPath.dfy`, `DiffieHellman.dfy` | relay and sockets together; a group in which Diffie-Hellman commutes |
| `Stun.dfy`, `Disco.dfy`, `OmniSock.dfy` | STUN, disco probes, the magic socket |
| `Endpoints.dfy`, `EndpointRuns.dfy` | the endpoint manager; its runs with overlapping pongs |
| `WgEngine.dfy`, `Wgnet.dfy`, `WgSync.dfy`, `RouteRuns.dfy` | a model of the WireGuard engine; `SyncPeers` and `SetRoutes`; what they achieve |
| `IpPool.dfy`, `Acl.dfy`, `Control.dfy`, `ControlRuns.dfy` | address allocation; access policy; the store; its runs |
| `StoreHistory.dfy` | machines, keys, invitations and tokens read off the events of a run |
| `TokenTimeline.dfy`, `Routes.dfy` | token rotation seen by an agent; the route pipeline |

## How the outside is represented

- Clock readings, random draws, save results and engine or system failures are parameters.
  Time is an integer of nanoseconds.
- X25519 and HMAC are functions in a record; the honest-registration theorems ask only that
  Diffie-Hellman commutes. `DiffieHellman` shows a function for which that is proved.
- A string matters through equality and through its parsers: addresses and prefixes are modelled by
  what the parser sees, with other spellings kept apart (`Text`, `RouteText`).
- A Go `map[string]bool` whose entries are only ever true is a set. A map visited by `range` is
  visited in an arbitrary order.

## What was found where code and comments differ

- `internal/relay/server.go:134` deletes by address. When two keys have proved from one address and
  the first moves away, the second stays registered and acknowledged, but nothing it sends is
  relayed (`RelayPath.SecondKeyIsMute`). `RelayHistory.RegisteredKeySpeaksIff` says exactly when a
  registered key can send.
- `internal/control/store.go:308` keeps the old token for a grace period to absorb a lost reply, but
  the new token is never sent again: the agent is refused from the end of that period on
  (`TokenTimeline.LostRotationLocksOut`).
- `internal/agent/endpoints.go:142-151` runs unlocked. A pong handled there leaves the peer on the
  relay while `onRelay` says direct (`EndpointRuns.OverlapLies`); `EndpointRuns.OnRelayIffUndisturbed`
  says exactly when the mark can be trusted.
- `internal/wgnet/wgnet.go:182-185` forgets a route even when the system refuses to remove it; such a
  route stays until it is wanted again (`RouteRuns.KernelIsInstalledAndLeaked`).
- `internal/wgnet/wgnet.go:154-162` leaves `known` unchanged after an error although the engine may
  have applied part of the script. Retrying the same map repairs this (`WgSync.RetryRealignsIff`);
  with another map peers may stay that are not wanted (`WgSync.RefusedMapLeaks`), or, with an engine
  that fails between removals, stay away that are (`WgSync.InterruptedRemovalLoses`).
  `WgSync.RunAlignsIff` is the exact condition. A peer that stays keeps its allowed IPs: a machine
  the policy has revoked goes on carrying its routes until a listed peer takes them
  (`Routes.UngrantedOwnerIff`).
- `internal/wgnet/wgnet.go:130-131` writes the first endpoint a new peer reports, unread; the engine
  refuses the script at one it cannot parse (`internal/omnisock/bind.go:340-354`). One such peer keeps
  every sync of its map from going through (`WgSync.MalformedEndpointFreezes`), where the comment on
  line 123 means to ignore an invalid peer rather than break the sync.
- `internal/wgnet/wgnet.go:133` writes "/32" behind an IPv6 address too: the machines of an IPv6 range
  share one allowed IP (`Routes.OwnAddressesApartIff`).
- `internal/wgnet/wgnet.go:125-149` compares peers by the text of their key. A peer whose key comes
  back in another text is removed by the very sync that lists it (`WgSync.AliasedKeyIsLost`).
- `internal/omnisock/bind.go:112-115` takes an ACK from any address for an answer of the relay, where
  the comment on line 173 speaks of the relay alone (`OmniSock.HealthyIffAckIsRecent`).
- `internal/types/types.go:32` omits an empty list of advertised routes, which
  `internal/control/store.go:346` reads as "unchanged": a machine that offers no route any more is
  not heard (`Routes.PollPublishesRoutes`).
- `internal/stun/stun.go:147` advances over the padding of the last attribute without checking that it
  is there. The advance stays in range for every message whose length is a multiple of four, as
  section 6 of RFC 5389 demands; `Stun.OutOfRangeIff` gives the exact condition. The panic is an
  outcome of its own in the parser and in the socket (`OmniSock.DrainIsFilter`).

## Model

| member | source | states |
|---|---|---|
| RelayFrames.FrameDecomposes | internal/relay/relay.go:58-63 | a packet is recognised exactly when it is magic, a type byte and a body |
| RelayFrames.KeyedRoundTrip | internal/relay/relay.go:66-110 | parsing a REGISTER, FORWARD or RECV frame gives back key and payload; rebuilding what was parsed gives back the packet |
| RelayFrames.ChallengeRoundTrip | internal/relay/relay.go:113-130 | the CHALLENGE parser and builder invert each other |
| RelayFrames.ProofRoundTrip | internal/relay/relay.go:134-160 | the PROOF parser and builder invert each other |
| RelayFrames.WireFormat | internal/relay/relay.go:23-160 | the six frames, byte for byte |
| RelayFrames.BuildRegister | internal/relay/relay.go:66-72 | the buffer filled is the REGISTER frame |
| RelayFrames.BuildAck | internal/relay/relay.go:75-80 | the buffer filled is the ACK frame |
| RelayFrames.BuildForward | internal/relay/relay.go:83-90 | the buffer filled is the FORWARD frame |
| RelayFrames.BuildRecv | internal/relay/relay.go:93-100 | the buffer filled is the RECV frame |
| RelayFrames.BuildChallenge | internal/relay/relay.go:113-120 | the buffer filled is the CHALLENGE frame |
| RelayFrames.BuildProof | internal/relay/relay.go:134-150 | the buffer filled is the PROOF frame, or the error of X25519 on either key |
| RelayFrames.HonestProofVerifies | internal/relay/relay.go:164-184 | the relay accepts every proof an honest client can build, for that client's key, when Diffie-Hellman commutes |
| DiffieHellman.GroupCommutes | internal/relay/relay.go:175-184 | in exponentiation modulo a prime, Diffie-Hellman commutes for every pair of keys |
| RelayServer.Server.constructor | internal/relay/server.go:48-61 | a new server starts an empty run |
| RelayServer.Server.Handle | internal/relay/server.go:86-160 | one frame changes the maps and is answered as `Step` says, and the run goes on as a genuine one |
| RelayServer.Server.HandleRegister | internal/relay/server.go:91-115 | REGISTER: keep-alive acknowledged, or challenge |
| RelayServer.Server.HandleProof | internal/relay/server.go:117-139 | PROOF: challenge spent before the MAC is checked, then registration |
| RelayServer.Server.HandleForward | internal/relay/server.go:141-158 | FORWARD: relayed or dropped, no map changed |
| RelayServer.Server.Serve | internal/relay/server.go:68-83 | every datagram is cut to 2048 bytes, its source unmapped, and handled in order |
| RelayServer.EntryIsStep | internal/relay/server.go:86-160 | every answer in a log is the step from the state its earlier frames lead to |
| RelayHistory.HolderMeaning | internal/relay/server.go:132-137 | the proof by which an address speaks is the one since which nobody proved from it and no key moved away from it |
| RelayHistory.HolderIsLatestProof | internal/relay/server.go:132-137 | an address only speaks for a key whose latest proof came from it |
| RelayHistory.StepIsEvent | internal/relay/server.go:86-160 | the frames in and out determine the next state, and acknowledgements are lawful; an accepted proof carries the MAC of nonce and claimed key under the secret shared with that key |
| RelayHistory.RunExplained | internal/relay/server.go:40-44 | in every run each of the three maps holds exactly what the traffic says |
| RelayHistory.RelayedExactlyIf | internal/relay/server.go:141-158 | in every run a FORWARD is relayed as K to an address if and only if the source speaks for K by its latest proof, K is alive there through REGISTERs less than 40 s apart, and the destination key is alive at that address |
| RelayHistory.RelayedOnlyIf | internal/relay/server.go:141-158 | every RECV ever sent answers a FORWARD of the same payload whose source speaks for the key it is labelled with, whatever the clock does |
| RelayHistory.ProofSpendsItsChallenge | internal/relay/server.go:117-131 | every accepted proof carries the MAC of its nonce and key under the shared secret, and answers its own challenge: same address, same nonce, less than 30 s old, not replaced, not spent |
| RelayHistory.ProofAcceptedIff | internal/relay/server.go:117-139 | a PROOF is acknowledged if and only if its address has an open challenge of that nonce, less than 30 s old, and the MAC is right; any other is dropped |
| RelayHistory.RegisterAnsweredIff | internal/relay/server.go:91-115 | a REGISTER is acknowledged if and only if its key is alive at its address, and otherwise challenged |
| RelayHistory.ProofsSpendDistinctChallenges | internal/relay/server.go:125-127 | two accepted proofs never spend the same challenge |
| RelayHistory.AnsweredChallengeIsSpent | internal/relay/server.go:123-131 | a nonce can be tried once, even when the MAC is refused |
| RelayHistory.ByAddrInvertsClients | internal/relay/server.go:132-137 | `byAddr` is a partial inverse of `clients` in every reachable state |
| RelayHistory.RegisteredKeySpeaksIff | internal/relay/server.go:132-137 | a registered key can send from its address if and only if its latest proof still holds that address |
| RelayHistory.OneAddressPerKey | internal/relay/server.go:132-137 | no key is spoken for from two addresses |
| RelayHistory.MapsAreInverse | internal/relay/server.go:132-137 | `clients` and `byAddr` are exact inverses in every run where no address proves two keys |
| RelayPath.OthersKeepChallenge | internal/relay/server.go:112-113 | frames from elsewhere leave an address's challenge alone |
| RelayPath.RegisterIsAnswered | internal/relay/server.go:96-115 | a REGISTER is acknowledged for a key kept alive there, and challenged otherwise |
| RelayPath.ChallengeIsProved | internal/omnisock/bind.go:116-127 | the socket answers a challenge of its own relay with its proof, and nobody else's |
| RelayPath.AckIsRecorded | internal/omnisock/bind.go:112-115 | an ACK makes the socket healthy for exactly 35 s |
| RelayPath.HonestRegistrationCompletes | internal/relay/server.go:91-139 | an honest client that answers its challenge within 30 s, whatever others send meanwhile, ends registered and speaking at its address, acknowledged, with a healthy socket |
| RelayPath.RelayedPayloadArrives | internal/omnisock/bind.go:128-135 | a payload sent to a relayed peer arrives byte for byte, labelled with the sender's key, if and only if it fits behind the header in both buffers |
| RelayPath.SecondKeyIsMute | internal/relay/server.go:133-137 | for all keys and addresses, a run after which a registered, acknowledged key has everything it sends dropped |
| Stun.BuildBindingRequest | internal/stun/stun.go:58-65 | the buffer filled is the request |
| Stun.BuildBindingResponse | internal/stun/stun.go:69-98 | the buffer filled is the response carrying the xored address |
| Stun.XorInto | internal/stun/stun.go:91-96 | the xor loop, with the cookie and the transaction id |
| Stun.DecodeAddress | internal/stun/stun.go:155-183 | the decoded address, through the in-place xor loop |
| Stun.DecodedBitByBit | internal/stun/stun.go:155-183 | which address attributes can be decoded, and every bit of address and port: the bit of the attribute, flipped in an xored one exactly where cookie and id (for the port the upper half of the cookie) have a one |
| Stun.BuiltBitByBit | internal/stun/stun.go:58-98 | requests and responses byte for byte, and the bits of the masked address and port |
| Net.XorBitsAt | internal/stun/stun.go:171-177 | each bit of an exclusive or is the sum of the operands' bits, modulo 2 |
| Stun.ParseBindingResponse | internal/stun/stun.go:115-153 | the loop over the shrinking slice computes the meaning of the attribute area |
| Stun.ScanSerialize | internal/stun/stun.go:126-148 | serialised attributes scan back to themselves, whatever their padding |
| Stun.SerializeScan | internal/stun/stun.go:126-148 | scanning loses no byte of any input |
| Stun.SerializeIsAligned | internal/stun/stun.go:146-147 | aligned attributes fill a multiple of four bytes |
| Stun.ParseOfAttributes | internal/stun/stun.go:115-153 | for every list of attributes and any trailing bytes: the first decodable XOR-MAPPED-ADDRESS, else the last decodable MAPPED-ADDRESS, else the error |
| Stun.RequestRoundTrip | internal/stun/stun.go:101-111 | a built request is recognised as a request only and gives its id back |
| Stun.ResponseRoundTrip | internal/stun/stun.go:69-183 | a built response gives back the id and the unmapped address and port, for every IPv4 and IPv6 address |
| Stun.AlignedNeverOverruns | internal/stun/stun.go:147 | the remaining length stays a multiple of four and no value lacks its padding |
| Stun.OutOfRangeIff | internal/stun/stun.go:147 | the parser leaves the slice exactly when an undecided scan ends on a value without its padding; never when the length is a multiple of four |
| Stun.UnalignedLengthOverruns | internal/stun/stun.go:147 | for every other length from five bytes on, some message leaves the slice |
| Disco.DiscoRoundTrip | internal/omnisock/disco.go:40-56 | disco encoding and decoding invert each other |
| Disco.EncodeDisco | internal/omnisock/disco.go:44-50 | the buffer filled is the probe |
| OmniSock.ProtocolsAreDisjoint | internal/omnisock/bind.go:102-107 | no packet belongs to two of disco, STUN responses and relay frames |
| OmniSock.ProtocolsOnTheWire | internal/omnisock/disco.go:40-42 | which packets are disco, STUN responses and relay frames, and what is read from them, byte for byte |
| OmniSock.WireGuardPassesThrough | internal/omnisock/bind.go:102-140 | no WireGuard message is intercepted |
| OmniSock.PacketContribution | internal/omnisock/bind.go:94-142 | what one packet brings about, read off its bytes: the delivery, the datagram written, the pong heard, the STUN answer and whose waiting it ends, the ACK, or the panic |
| OmniSock.DrainIsFilter | internal/omnisock/bind.go:89-209 | over any packets, up to the first on which the STUN parser panics: WireGuard is handed exactly its own and the unwrapped relayed ones; the socket writes one pong per ping with the same id and one proof per challenge of its relay; the handler hears every pong with its id and source; each first answer to a waiting STUN request puts its address on that request's channel; all in order. The whole sequence is got through if and only if no packet panics |
| OmniSock.HealthyIffAckIsRecent | internal/omnisock/bind.go:112-115 | after any traffic the relay is healthy exactly for 35 s from the last ACK received, from whatever address; without an ACK nothing changes |
| OmniSock.ReceiveServesChannelsOnce | internal/omnisock/bind.go:197-209 | no STUN requester's channel is ever sent two answers |
| OmniSock.Bind.Receive | internal/omnisock/bind.go:89-143 | one call consumes packets up to the first for WireGuard and leaves it at the front of the buffer, or up to a panic |
| OmniSock.Bind.Dispatch | internal/omnisock/bind.go:102-141 | the switch on one packet, with the overlapping shift of a relayed payload, and the panic of the STUN parser |
| OmniSock.Bind.AnswerChallenge | internal/omnisock/bind.go:116-127 | the proof is written to the relay, or nothing |
| OmniSock.Bind.HandleDisco | internal/omnisock/bind.go:180-195 | a ping is answered to its source with its id, a pong goes to the handler |
| OmniSock.Bind.HandleStun | internal/omnisock/bind.go:197-209 | an answer goes to the waiting request of its id, which stops waiting; a panic of the parser leaves the fields alone |
| OmniSock.Bind.ConfigureRelay | internal/omnisock/bind.go:148-159 | address and key pair are set together, or not at all |
| OmniSock.Bind.RelayRegister | internal/omnisock/bind.go:163-171 | a REGISTER for the configured key goes to the relay |
| OmniSock.Bind.SendPing | internal/omnisock/bind.go:212-215 | the ping written carries the id drawn |
| OmniSock.Bind.BeginStunRequest | internal/omnisock/bind.go:226-245 | a fresh channel waits under the id before the request leaves |
| OmniSock.Bind.EndStunRequest | internal/omnisock/bind.go:231-235 | the request no longer waits |
| OmniSock.Bind.Send | internal/omnisock/bind.go:311-336 | each buffer leaves as it is, or wrapped for its relayed peer; the errors of a missing relay and a closed socket |
| OmniSock.OutgoingOnTheWire | internal/omnisock/bind.go:311-336 | the datagrams of a send: each buffer to its peer, or FORWARD, key and buffer to the relay, byte for byte |
| Endpoints.CandidatesOf | internal/agent/endpoints.go:206-220 | the non-empty endpoints, each once |
| Endpoints.FirstOccurrencesInOrder | internal/agent/endpoints.go:203-220 | candidates keep the order in which they were first listed |
| Endpoints.InitialIsFirstReported | internal/agent/endpoints.go:224-229 | the initial endpoint is the first reported one, else the observed one, and missing only when there is none |
| Endpoints.ObserveForgetsDeparted | internal/agent/endpoints.go:80-90 | a peer that leaves the map loses its counter and its mark; one that stays keeps both |
| Endpoints.PeersOfLastEntry | internal/agent/endpoints.go:76-79 | a key listed twice has the candidates of its last entry |
| Endpoints.EndpointManager.SetRelayAvailable | internal/agent/endpoints.go:66-70 | only the relay signal changes |
| Endpoints.EndpointManager.Observe | internal/agent/endpoints.go:73-91 | the fields become those of `ObserveStep` |
| Endpoints.EndpointManager.Decide | internal/agent/endpoints.go:102-140 | in any order of the map: the counters, the marks, the list of peers to switch without repetition, and exactly the probes due |
| Endpoints.EndpointManager.Visit | internal/agent/endpoints.go:116-131 | one peer is counted, and falls back on the relay when it is time |
| Endpoints.EndpointManager.Turn | internal/agent/endpoints.go:116-139 | one turn of the loop: count, fallback, probes |
| Endpoints.EndpointManager.Switch | internal/agent/endpoints.go:142-151 | accepted switches reach the device, refused ones lose their mark |
| Endpoints.EndpointManager.Probe | internal/agent/endpoints.go:95-162 | a whole round, with the engine calls and probes it makes |
| Endpoints.EndpointManager.OnPong | internal/agent/endpoints.go:166-201 | a whole pong, ignored when the peer is already connected directly |
| EndpointRuns.ProbeIsRun | internal/agent/endpoints.go:95-162 | a whole round equals the run of its critical sections and engine calls |
| EndpointRuns.PongIsRun | internal/agent/endpoints.go:166-201 | a whole pong equals the run of its critical sections and engine call |
| EndpointRuns.CountIsSilentRounds | internal/agent/endpoints.go:112-131 | in every run the count of a peer is the number of rounds that found it listed without a handshake of the last 135 s, since the last round that found it fresh and unmarked, its last committed pong, or its joining the map |
| EndpointRuns.FallbackIff | internal/agent/endpoints.go:124-131 | a round decides to switch a peer if and only if the relay is available and the peer, listed and unmarked, is silent for at least the third round running |
| EndpointRuns.ProbesAreDue | internal/agent/endpoints.go:132-139 | a round owes a probe to each readable candidate of each peer that is relayed or without a handshake of the last 135 s, and to no other |
| EndpointRuns.SwitchesArePaid | internal/agent/endpoints.go:93-151 | in every run, with pongs landing inside `Probe` and failing engine calls, three times the successful relay switches of a peer never exceed the rounds that found it listed without a handshake of the last 135 s |
| EndpointRuns.OnRelayIsLastPushed | internal/agent/endpoints.go:73-201 | with calls taken whole, `onRelay` holds exactly when the last endpoint pushed since the peer joined is the relay |
| EndpointRuns.OnRelayIffUndisturbed | internal/agent/endpoints.go:93-201 | in every run, with pongs landing inside `Probe`: between calls a peer is marked exactly when the relay was the last endpoint pushed for it and no pong of it has been committed since that switch was decided; the mark lies exactly when one was |
| EndpointRuns.OverlapLies | internal/agent/endpoints.go:142-195 | one such run: a pong between decision and switch leaves the peer on the relay, unmarked |
| EndpointRuns.OverlapIsReachable | internal/agent/endpoints.go:115-140 | three silent rounds of a probed peer lead to such an overlap |
| EndpointRuns.PendingIsLastProbe | internal/agent/endpoints.go:159-172 | a waiting probe is the latest sent under its id, and no id is taken more often than sent |
| EndpointRuns.PendingIsWaiting | internal/agent/endpoints.go:102-172 | in every run the probes waiting are those sent, not taken by a pong, and not dropped by a round more than 15 s later |
| EndpointRuns.PongGoesToItsPeer | internal/agent/endpoints.go:166-175 | each probe is applied at most once, to the peer it was sent for |
| WgEngine.ExecAppend | internal/wgnet/wgnet.go:154 | a script runs line by line |
| Wgnet.Device.SyncPeers | internal/wgnet/wgnet.go:117-164 | the engine runs the script, or its lines up to the first it refuses or fails at; `known` follows only a success |
| Wgnet.Device.WritePeers | internal/wgnet/wgnet.go:118-141 | one block per readable peer |
| Wgnet.Device.PeerBlock | internal/wgnet/wgnet.go:126-140 | the lines for one peer |
| Wgnet.Device.RouteLines | internal/wgnet/wgnet.go:134-139 | one allowed IP for each route that is a network, in order |
| Wgnet.Device.SetRoutes | internal/wgnet/wgnet.go:170-201 | in any order and with any failures, installed becomes desired ∩ (old ∪ additions that succeed); an error exactly when a call failed |
| Wgnet.Device.RemoveStale | internal/wgnet/wgnet.go:180-187 | undesired routes are forgotten, and removed unless the system refuses |
| Wgnet.Device.AddMissing | internal/wgnet/wgnet.go:188-199 | missing routes are added unless the system refuses |
| Wgnet.DesiredRoutes | internal/wgnet/wgnet.go:171-178 | the canonical networks among the texts, without the default route |
| Wgnet.OwnPrefixMeaning | internal/wgnet/wgnet.go:133 | the addresses a peer's own allowed IP stands for: its IPv4 address alone, or all IPv6 addresses that share its first 32 bits |
| Wgnet.NetworksInOrder | internal/wgnet/wgnet.go:135-139 | the networks of two lists in a row are those of each |
| WgSync.BlockEffect | internal/wgnet/wgnet.go:126-140 | a peer's block creates or updates that peer and moves its allowed IPs to it |
| WgSync.ScriptEffect | internal/wgnet/wgnet.go:117-150 | the script means: every block in order, then the departures |
| WgSync.SyncAlignsPeersIff | internal/wgnet/wgnet.go:117-164 | for every engine and map, a sync leaves exactly the readable desired peers if and only if no peer comes back under another text of its key, every engine peer was known or is desired, and every desired known peer was there or is listed under a new text too |
| WgSync.SyncKeepsEndpointIff | internal/wgnet/wgnet.go:113-131 | an engine peer keeps its endpoint if and only if it does not depart and is offered no other under a text not known; one listed under known texts only is offered none |
| WgSync.SyncStartsEndpoint | internal/wgnet/wgnet.go:130-131 | a peer new to the engine starts with the endpoint the map offers its key, or with none |
| WgSync.SyncAssignsOwners | internal/wgnet/wgnet.go:117-150 | for every engine and map, who owns an allowed IP after a sync: the last peer listing it among the blocks that take effect, or the owner before when none of them touches it; unless that key departs |
| WgSync.SyncOwns | internal/wgnet/wgnet.go:132-139 | from an engine that has every listed known peer and no strangers, when no peer is respelled: exactly the last desired peer listing an IP owns it |
| WgSync.SyncKeepsStepIff | internal/wgnet/wgnet.go:117-164 | from a state in step, a successful sync ends in step, with exactly the desired peers, if and only if no peer comes back under another text of its key; then all owners are the desired ones |
| WgSync.RunsStayInStepIff | internal/wgnet/wgnet.go:117-164 | over every run of successful syncs from the start, `known` equals the engine's peers throughout if and only if no map respells a known peer; then peers and owners are those of the last map |
| WgSync.StoppedScript | internal/wgnet/wgnet.go:154-156 | the engine's peers at whatever line a script stops |
| WgSync.EngineIsKnownAndDrift | internal/wgnet/wgnet.go:154-162 | in every run of syncs, interrupted anywhere or not, over any maps: the engine's peers are the known ones less the lost, and the leaked |
| WgSync.RunAlignsIff | internal/wgnet/wgnet.go:154-162 | after any run, a successful sync leaves exactly the desired peers if and only if the map wants every leaked peer, respells no known one, and lists no lost one under its known text alone |
| WgSync.RunOwnersIff | internal/wgnet/wgnet.go:117-164 | after any run, interrupted or not, a successful sync gives an IP to a key if and only if it is the last peer listing it among the blocks that take effect and does not depart, or it is a leaked unwanted peer that had the IP and no such block lists it |
| WgSync.SyncGoesThroughIff | internal/wgnet/wgnet.go:130-131 | a sync goes through if and only if no peer not yet known offers an endpoint the engine refuses, failures of the engine's own aside |
| WgSync.MalformedEndpointFreezes | internal/wgnet/wgnet.go:154-156 | while a map lists a peer with such an endpoint no sync of it ever goes through: `known` stays, departed peers stay, peers listed after it are not added |
| WgSync.RefusalsOnlyLeak | internal/wgnet/wgnet.go:154-156 | with an engine that fails nowhere but at endpoints it refuses, no run loses a peer unless a map respells it |
| WgSync.RefusalsAlignIff | internal/wgnet/wgnet.go:154-162 | with such an engine the next successful sync aligns the peers if and only if the map wants every leaked peer and respells no known one |
| WgSync.LostStaysLost | internal/wgnet/wgnet.go:128-129 | a lost peer stays out of the engine while maps list it under its known text alone |
| WgSync.RetryRealignsIff | internal/wgnet/wgnet.go:154-156 | any number of interrupted syncs is made good by the next success on the same map if and only if no peer comes back under another text of its key |
| WgSync.RefusedMapLeaks | internal/wgnet/wgnet.go:154-156 | a peer listed before one whose endpoint is refused, and dropped by the next map, stays in the engine with all its allowed IPs |
| WgSync.InterruptedRemovalLoses | internal/wgnet/wgnet.go:154-156 | with an engine assumed to fail by itself between removals: a peer removed before the failure and listed by the next map is not put back |
| WgSync.AliasedKeyIsLost | internal/wgnet/wgnet.go:142-150 | two texts of one key break the alignment |
| RouteRuns.KernelIsInstalledAndLeaked | internal/wgnet/wgnet.go:180-199 | in every run the system has exactly the installed routes and those it refused to remove |
| RouteRuns.KernelIsDesiredIff | internal/wgnet/wgnet.go:170-201 | the system has the desired routes if and only if what leaked is desired and no addition failed |
| RouteRuns.CleanRunFollowsDesired | internal/wgnet/wgnet.go:170-201 | without failures the system follows the desired set and a repeated call asks for nothing |
| RouteRuns.FailedAddIsRetried | internal/wgnet/wgnet.go:188-199 | a failed addition is tried again by every call that still wants it |
| Prefixes.MaskedIsCanonical | internal/control/store.go:403-413 | masking gives a canonical prefix for the same addresses |
| Prefixes.CanonicalRange | internal/control/store.go:447-454 | a canonical prefix stands for one interval of addresses |
| Prefixes.CanonicalIsUnique | internal/control/store.go:403-413 | two canonical prefixes are equal exactly when they stand for the same addresses |
| Prefixes.CidrMeans | internal/wgnet/wgnet.go:135-139 | a route text is read as the one canonical prefix of its addresses |
| IpPool.AllocateIP | internal/control/store.go:454-459 | the loop computes `Allocate`, and ends even at the last address of the family |
| IpPool.AllocateMeaning | internal/control/store.go:442-460 | the least free host, never network or broadcast; failure exactly when every host is taken |
| IpPool.FewerThanHostsSucceeds | internal/control/store.go:442-460 | allocation succeeds while fewer addresses are used than there are hosts |
| IpPool.TooSmallAlwaysFails | internal/control/store.go:454 | allocation always fails exactly for ranges of one or two addresses |
| Control.Store.AllocateIPLocked | internal/control/store.go:444-460 | the addresses in use are collected and the range is walked |
| Control.Store.CreateDeviceLocked | internal/control/store.go:269-286 | a new machine under its key, or the allocation's error and no change |
| Control.Store.CreateAuthKeyFor | internal/control/store.go:158-176 | the key is appended, expiring after its ttl if it has one |
| Control.Store.FindAuthKey | internal/control/store.go:207-214 | the first key of that text still usable |
| Control.Store.RegisterDevice | internal/control/store.go:192-229 | enrolment by key, as `RegisterStep` |
| Control.Store.RegisterDeviceSSO | internal/control/store.go:234-266 | enrolment by an authenticated user, as `RegisterSSOStep` |
| Control.Store.DeviceByToken | internal/control/store.go:290-304 | a device that accepts the token, whatever the order, or none does |
| Control.Store.RotateTokenIfDue | internal/control/store.go:309-328 | rotation of a token old enough, as `RotateStep` |
| Control.Store.TouchDevice | internal/control/store.go:332-356 | last sight, endpoint, candidates and normalised routes, as `TouchStep` |
| Control.Store.SetApprovedRoutes | internal/control/store.go:360-382 | all routes valid and a matching machine, or an error and no change |
| Control.Store.ActiveRoutes | internal/control/store.go:386-401 | the advertised routes that are approved |
| Control.RoutesKeepTheirOrder | internal/control/store.go:346-413 | normalised and active routes keep the order of the list they come from |
| Control.Store.RemoveDevice | internal/control/store.go:465-479 | one matching machine goes, or an error and no change |
| Control.Store.RemoveOwnedDevice | internal/control/users.go:201-215 | one matching machine of that owner goes, or an error and no change |
| Control.Store.CreateInvite | internal/control/users.go:46-62 | the invitation is appended |
| Control.Store.RegisterUser | internal/control/users.go:77-125 | account creation, as `SignUpStep` |
| Control.Store.SetACL | internal/control/store.go:435-440 | the policy is replaced |
| Acl.MatchAny | internal/control/acl.go:48-55 | the loop finds an entry that is the wildcard, the host name or the address text |
| Acl.Allows | internal/control/acl.go:30-40 | the loop finds a rule that names the one as source and the other as destination; no rules allow everything |
| Acl.Visible | internal/control/acl.go:44-46 | traffic is allowed one way or the other |
| Control.Store.VisiblePeers | internal/control/server.go:134-147 | exactly the other machines the policy shows, with their names, address, endpoints and active routes |
| Control.HandlePoll | internal/control/server.go:98-149 | refused without an accepted token; otherwise touched, rotated when due, and shown the visible peers |
| ControlRuns.DevicesAreSound | internal/control/store.go:269-286 | in every run machines are filed under their key, their addresses are distinct hosts of the range, their routes canonical IPv4 |
| ControlRuns.RoomMeansAddress | internal/control/store.go:442-460 | enrolment finds an address while there are fewer machines than hosts |
| ControlRuns.VisibilityIsMutual | internal/control/acl.go:42-46 | two machines are shown to each other or not at all |
| ControlRuns.ShownIff | internal/control/acl.go:30-55 | a poll shows a machine if and only if there are no rules or some rule has an entry naming the one and an entry naming the other, in either direction |
| ControlRuns.UnnamedIsAlone | internal/control/acl.go:30-55 | under rules, a machine no entry names sees nobody and is seen by nobody |
| ControlRuns.DesignatedBy | internal/control/store.go:468-469 | a command finds a machine by its host name, its id, or the text of its address, which no other machine answers to unless named so |
| ControlRuns.SingleUseKeys | internal/control/store.go:207-226 | a key that is not reusable enrols at most one machine in every run, saves failing or not |
| ControlRuns.EnrolmentNeedsUsableKey | internal/control/store.go:207-228 | an enrolment needs an unexpired unspent key, spends it, and gives its owner and the least free address |
| ControlRuns.ReRegisteringIsIdempotent | internal/control/store.go:196-205 | registering again keeps id, address and token, spends nothing, and renames only to a given name |
| ControlRuns.InvitesMatchAccounts | internal/control/users.go:95-120 | in every run used invitations equal accounts created by invitation |
| ControlRuns.TokensNameOneDevice | internal/control/store.go:296-302 | with draws that do not repeat a token names at most one machine, so lookup does not depend on order, and no machine has more than two |
| ControlRuns.TokensAreFramed | internal/control/store.go:309-328 | only its own rotation or removal touches a machine's tokens |
| StoreHistory.RecordIsHistory | internal/control/store.go:192-368 | in every run each field of a machine's record is what the last event that says anything about it says, since the event that enrolled it; tokens by the rotations that were due |
| StoreHistory.TokenAcceptedIff | internal/control/store.go:290-328 | a token is accepted if and only if it is the last one issued, or the one that replaced and less than an hour has passed |
| StoreHistory.PollIsRun | internal/control/server.go:114-130 | a poll is a touch and then, once that is saved, a rotation if due; its reply carries a token exactly when it was replaced and saved |
| StoreHistory.KeysAreHistory | internal/control/store.go:158-228 | each enrolment key is the one created, and is used exactly when it has enrolled a machine |
| StoreHistory.EnrolmentIff | internal/control/store.go:192-230 | a new machine is let in if and only if some key created with that text has time left and, unless reusable, has enrolled nobody, and an address is free; its owner is that of the first such key; otherwise nothing changes and the error says why |
| StoreHistory.SSOEnrolmentIff | internal/control/store.go:234-266 | a new machine of an authenticated user is let in if and only if an address is free, and belongs to that user |
| StoreHistory.InvitesAreHistory | internal/control/users.go:95-106 | each invitation is the one created, and is used exactly when one account has been created with it |
| StoreHistory.SignUpIff | internal/control/users.go:77-125 | who gets an account: the checks of address, password and invitation, read off the invitations created and used |
| TokenTimeline.PreviousNeverRotates | internal/control/server.go:120-127 | a poll accepted on the previous token never rotates, and is accepted exactly before the grace deadline |
| TokenTimeline.CurrentStepsOn | internal/control/server.go:114-130 | a poll on the current token is accepted and leaves the agent behind exactly when it loses a rotation |
| TokenTimeline.CurrentIffNothingLost | internal/agent/agent.go:243-252 | a lone agent always holds the current or previous token, and the current one if and only if no rotation was lost |
| TokenTimeline.LostRotationLocksOut | internal/control/store.go:306-328 | after a lost rotation later polls are accepted exactly until one grace period after it |
| Routes.AdvertisedRoutes | internal/agent/agent.go:306-324 | the loop computes `Advertised` and the set of own routes, or the error |
| Routes.AdvertisedMeaning | internal/agent/agent.go:306-324 | an error exactly when some text is no route; otherwise, for every offered route, the one canonical text of its addresses, once |
| Routes.AdvertisedInOrder | internal/agent/agent.go:306-324 | routes are advertised in the order of first listing |
| Routes.NormalFormIff | internal/control/store.go:404-413 | the server reads a text as a route if and only if it is an IPv4 prefix, and keeps the canonical text of the same addresses |
| Routes.PollPublishesRoutes | internal/control/store.go:346-354 | the server knows exactly the canonical IPv4 routes whose addresses the agent offers, the default route for an exit node; an agent that offers none any more is not heard |
| Routes.FilterRoutes | internal/agent/agent.go:329-359 | every peer with the routes kept, the subnets, and whether the exit node offers the default route |
| Routes.FilterPeer | internal/agent/agent.go:334-357 | the routes of one peer |
| Routes.KeptInOrder | internal/agent/agent.go:334-357 | the routes kept stay in order |
| Routes.SubnetsInOrder | internal/agent/agent.go:349-353 | more peers only add subnets at the end |
| Routes.SubnetsMeaning | internal/agent/agent.go:349-353 | the subnets are those some peer keeps, each once, never the default route |
| Routes.RoutesReachExactly | internal/control/server.go:134-147 | a route reaches an agent for a key if and only if that visible machine advertises it, it is approved, and the agent keeps it |
| Routes.AllowedIPsAreGranted | internal/wgnet/wgnet.go:133-139 | a peer's allowed IPs are its own address as the engine reads it, and exactly the routes granted for it, canonical IPv4 |
| Routes.OwnersIff | internal/wgnet/wgnet.go:117-164 | after any run of syncs, one that goes through with a poll's filtered peers gives a prefix to a key if and only if it belongs to the last machine that may carry it (its address, or a granted route) among the blocks that take effect and does not depart, or is a leaked peer that keeps it |
| Routes.UngrantedOwnerIff | internal/wgnet/wgnet.go:117-164 | an owner without a grant is exactly a leaked unwanted peer that had the prefix and whose prefix no block that takes effect lists |
| Routes.OwnAddressesApartIff | internal/wgnet/wgnet.go:133 | two machines' own allowed IPs are always apart in an IPv4 range; in an IPv6 range they are one exactly when the first 32 bits agree, always in a range of length 32 or more |
| Routes.SystemRoutesAreGranted | internal/wgnet/wgnet.go:170-178 | the system's routes are exactly the granted subnets, never the default route, never our own |
| Routes.ReachableRoutesAreCanonical | internal/control/store.go:346-368 | every reachable store has only canonical routes, and addresses an agent can read |
| Routes.DifferentTextsDifferentAddresses | internal/agent/agent.go:346-348 | route texts differ exactly when their address sets do |

## Left out

- Sockets, TUN, netlink and process control: each foreign call is a parameter that may fail.
- A failing write on an open UDP socket, and `Close` during a read: a lost datagram stands for both.
- The relay's and the store's several clock readings inside one critical section count as one, except
  that the relay reads once before and once after its checks and a poll once before and once after.
- `STUNRequest`'s retransmission and time-out (internal/omnisock/bind.go:237-255).
- IPv6 zones in addresses.
- The engine ignoring its own public key in a script, which the server never sends.
- Sessions, passwords, OIDC and the HTTP layer: thin wrappers over libraries; bcrypt and e-mail
  normalisation are parameters.
- The order of `Devices()`: peers come in an arbitrary order, so the last peer listing an allowed IP
  is the last in the order received.
- The insides of X25519, SHA-256, HMAC, base64 and text parsing.
- File mechanics of `saveLocked`, beyond success or failure after memory has changed.
- RelayHistory.RelayedExactlyIf: asks for a clock that does not run backwards; RelayHistory.RelayedOnlyIf does not.
- TokenTimeline.CurrentIffNothingLost: asks that a poll lasts no longer than the rotation age minus the
  grace period (23 hours with the defaults).
