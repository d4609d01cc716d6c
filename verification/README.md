# Mumble voice protocol: a verified model

This project models the Mumble voice-protocol library (`mumble-protocol`), the message-passing voice
server built on it (`stammer`) and the microphone half of the client's audio task (`stutter`), and
proves what they promise about every input and every run.

- **Encrypted voice channel** (`Blocks`, `Ocb`, `OcbReference`, `Crypt`, `CryptAuthentic`, `CryptRuns`,
  `CryptChannel`, `CryptReplay`). OCB2 over an arbitrary invertible block cipher, done in place on a byte
  buffer, and the same mode written down block by block; doubling in GF(2^128); the `CryptState` class with
  its nonce window, 256-slot history and counters. Runs follow full nonces as unbounded integers, of which
  the state keeps the value modulo 2^128.
- **Server** (`RoutingTables`, `Server`, `Tasks`, `ServerShutdown`, `ServerDrain`, `ServerStop`,
  `ServerControl`, `ServerLifecycle`, `ServerVoice`, `ServerEndToEnd`, `ServerWitness`). The accept, session,
  control and routing tasks as a transition system over FIFO queues with a closed flag, any number of
  sessions and any interleaving; `Tasks` holds the task bodies as imperative code that takes exactly those
  steps. A panic is a `fault` in the state, so that the source's `expect` and `unwrap` calls are things to
  prove.
- **Codecs** (`Bytes`, `Varint`, `Voice`, `Framing`, `Tunnel`; `VarintBytes`, `VoiceBytes` and `FramingBytes`
  state the formats byte by byte). Varints, the direction-dependent voice codec, length-prefixed stream
  framing and voice tunnelled over it; `ServerEndToEnd` joins two such connections through a run of the
  server.
- **Microphone** (`Reframer`). Buffers of any size cut into frames of 960 samples through a bounded ring.

Conventions. Machine integers are bounded mathematical integers; wrap-around and truncation are written
out. The packet counters wrap at 2^32 as in a build without overflow checks. The cipher's input for a
nonce is its little-endian bytes, which is what `to_be` followed by `to_be_bytes` gives on a
little-endian host. AES, random keys, sockets, clocks and Opus are parameters or left out.

Where the code and its own documentation disagree, or the code does not do what it is for, the model
follows the code:

- A datagram 30 or more behind is rejected with the nonce already moved back and not restored, although
  the comment at mumble-protocol/src/crypt.rs:174-175 says a late packet restores it
  (`CryptRuns.RejectionKeepsState`, `CryptRuns.LateMovesNonce`). Such a datagram needs no valid tag, and
  right after one that is 30 to 127 behind the receiver accepts its last datagram a second time
  (`CryptReplay.AcceptedAgainExactly`, `CryptReplay.AcceptedTwiceAfterLate`). Theorems over runs of the
  receiver therefore speak of runs without that rejection.
- `Repeat` is documented as "already decrypted"; an untouched history slot also answers for second byte
  zero, and a slot answers for nonces 2^16 apart (`CryptRuns.RepeatExactly`,
  `CryptRuns.FalseRepeatExists`, `CryptReplay.AliasedRepeatExists`).
- `good` is documented as packets "without issues" (mumble-protocol/src/crypt.rs:109-112) but counts the late
  ones too: `good` less `late` is the number that came on time, so `good` is that number if and only if none
  was late (`CryptRuns.GoodCountsOnTimeExactly`, `CryptReplay.LateCountsAsGood`).
- The server is documented to run until the caller notifies it to stop, and to wait for its session tasks
  then (stammer/src/lib.rs:47, 63). The version exchange of a session has no timeout
  (stammer/src/task_session.rs:175-190), so one client that connects and sends nothing keeps the server
  from stopping (`ServerDrain.SilentClientBlocks`); `ServerDrain.RestIsStopped` says exactly when it stops.
- The encoder writes frames of any length (mumble-protocol/src/control.rs:92-101) and the decoder never gets
  past one over 0x7fffff bytes (mumble-protocol/src/control.rs:73-74). A voice packet within that limit can
  exceed it once the server has put the speaker's id in (`Tunnel.RestampFitsExactly`), and then it ends the
  connection of every listener it is sent to (`ServerWitness.LongPacketCutsOff`). `ServerEndToEnd.EndToEnd`
  says what is heard in any case, and that all of it is if and only if no delivered packet is that long.

## Model

| member | source | states |
|---|---|---|
| `Blocks.S2IsDoubling` | mumble-protocol/src/crypt.rs:327-331 | rotate-and-fold is multiplication by x in GF(2^128) as section 2.3 of RFC 5297 defines it |
| `Blocks.S2Linear` | mumble-protocol/src/crypt.rs:327-331 | doubling is xor-linear |
| `Blocks.S2Bijective` | mumble-protocol/src/crypt.rs:327-331 | doubling is a bijection, with its inverse given |
| `Blocks.TripleInjective` | mumble-protocol/src/crypt.rs:255 | x ^ s2(x), the factor applied to the last offset, is injective |
| `Blocks.ToBytesFromBytes` | mumble-protocol/src/crypt.rs:235-237 | bytes to block and back is the identity |
| `Blocks.FromBytesToBytes` | mumble-protocol/src/crypt.rs:271-273 | block to bytes and back is the identity |
| `Ocb.DoubledInjective` | mumble-protocol/src/crypt.rs:233-242 | the k-th offset is the k-fold double of the enciphered nonce, and the enciphered nonce can be told from it |
| `Ocb.SealedBlock` | mumble-protocol/src/crypt.rs:228-240 | the i-th full block is enciphered between two xors with the (i+1)-fold doubled offset |
| `Ocb.RoundTrip` | mumble-protocol/src/crypt.rs:224-291 | encryption and decryption under one nonce are inverse in both orders, for every length |
| `Ocb.TagSeparates` | mumble-protocol/src/crypt.rs:253-255 | equal tags under one nonce and length mean equal checksums, and conversely |
| `OcbReference.EncryptIsReference` | mumble-protocol/src/crypt.rs:224-251 | for every message and nonce, each ciphertext block as a formula over the cipher, xor and RFC 5297 doubling: E(offset ^ block) ^ offset, and the final one xored with the leading bytes of E(offset ^ bit length) |
| `OcbReference.TagIsReference` | mumble-protocol/src/crypt.rs:253-255 | the tag of every message: the xor of all its blocks, the final one filled up from the pad, with the last offset and its double, enciphered |
| `OcbReference.NonceBytes` | mumble-protocol/src/crypt.rs:225 | the k-th byte the cipher is given for a nonce is its k-th least significant one |
| `OcbReference.BitOfBytes` | mumble-protocol/src/crypt.rs:235-237 | bytes in order, the most significant bit of each first |
| `Ocb.FinalSeal` | mumble-protocol/src/crypt.rs:244-251 | the pad-overwrite of the final block is xor with the leading pad bytes, for every partial length |
| `Ocb.FinalOpen` | mumble-protocol/src/crypt.rs:280-288 | the zero-padded final block decrypts to the plaintext completed with the tail of the pad |
| `Ocb.SealFull` | mumble-protocol/src/crypt.rs:228-240 | the in-place encryption loop keeps done ciphertext, remaining plaintext, offset and checksum in step with the specification |
| `Ocb.OpenFull` | mumble-protocol/src/crypt.rs:264-276 | the same for the decryption loop |
| `Ocb.OcbEncrypt` | mumble-protocol/src/crypt.rs:224-256 | the buffer becomes the specified ciphertext and the result is the tag of the plaintext |
| `Ocb.OcbDecrypt` | mumble-protocol/src/crypt.rs:260-291 | the buffer becomes the specified plaintext and the result is the tag of that plaintext |
| `Crypt.CryptState.EncryptPacket` | mumble-protocol/src/crypt.rs:145-161 | the nonce advances by one modulo 2^128 and the datagram is low byte, three tag bytes and ciphertext under it |
| `Crypt.CryptState.Locate` | mumble-protocol/src/crypt.rs:176-200 | the window position is the signed 8-bit distance; repeats restore the nonce, far too late datagrams do not |
| `Crypt.CryptState.Open` | mumble-protocol/src/crypt.rs:202-206 | the plaintext comes out exactly when three tag bytes match |
| `CryptAuthentic.ReceiveExactly` | mumble-protocol/src/crypt.rs:164-221 | every state and datagram: unless short, far too late or a repeat, it is accepted if and only if its three tag bytes are those of the plaintext it decrypts to under the rebuilt nonce, and else rejected with the state unchanged; all fields after acceptance |
| `CryptAuthentic.ForgedTagIsRejected` | mumble-protocol/src/crypt.rs:202-206 | a sealed datagram with any other three tag bytes is never accepted and changes nothing; with its own it is, ahead of the receiver |
| `CryptAuthentic.DatagramLayout` | mumble-protocol/src/crypt.rs:145-161 | low nonce byte, the first three bytes of the tag, ciphertext |
| `Crypt.CryptState.DecryptPacket` | mumble-protocol/src/crypt.rs:164-221 | outcome, nonce, history and counters are those of the receiver specification |
| `Crypt.CryptState.SetDecryptNonce` | mumble-protocol/src/crypt.rs:140-142 | only the nonce changes |
| `Crypt.CryptState.constructor` | mumble-protocol/src/crypt.rs:90-107 | zero history and counters around the given nonces |
| `Crypt.GapIsUnique` | mumble-protocol/src/crypt.rs:185-186 | the byte on the wire determines the nonce within [-128, 127] of the receiver |
| `Crypt.GapOfLowBytes` | mumble-protocol/src/crypt.rs:180-186 | the in-order test and the wrapping byte difference compute that distance |
| `Crypt.WrapKeepsLowBytes` | mumble-protocol/src/crypt.rs:186-190 | wrapping at 2^128 keeps the two low bytes the protocol looks at |
| `CryptRuns.StepKeepsInv` | mumble-protocol/src/crypt.rs:176-215 | every datagram not rejected as far too late keeps the nonce, history, distinctness and counter invariants |
| `CryptRuns.RunKeepsInv` | mumble-protocol/src/crypt.rs:176-215 | those invariants hold after every run on arbitrary bytes |
| `CryptRuns.NeverAcceptedTwice` | mumble-protocol/src/crypt.rs:176-215 | over every such run no full nonce is accepted twice |
| `Ocb.NonceBlockInjective` | mumble-protocol/src/crypt.rs:225 | different 128-bit nonces are different blocks to the cipher |
| `CryptRuns.CipherNoncesDiffer` | mumble-protocol/src/crypt.rs:182-208 | in fewer than 2^120 datagrams the blocks the cipher is given for the accepted nonces differ too |
| `CryptRuns.AcceptedRange` | mumble-protocol/src/crypt.rs:180-200 | accepted nonces lie above start - 30 and never above the highest one |
| `CryptRuns.CountersCount` | mumble-protocol/src/crypt.rs:208-215 | good counts accepted nonces, late the late ones, lost the missing minus the early ones, modulo 2^32 |
| `CryptRuns.CountersExact` | mumble-protocol/src/crypt.rs:208-215 | below 2^31 good, late and lost are exact, lost read as signed, and good + lost is the distance covered |
| `CryptRuns.GoodCountsOnTimeExactly` | mumble-protocol/src/crypt.rs:208-215 | good less late is the number of accepted nonces beyond the start and beyond every earlier one, so good counts just those if and only if none was late |
| `CryptReplay.LateCountsAsGood` | mumble-protocol/src/crypt.rs:208-215 | two datagrams that arrive swapped: good 2, of which late 1 |
| `CryptRuns.RejectionKeepsState` | mumble-protocol/src/crypt.rs:190-206 | a rejection leaves the state unchanged if and only if the datagram is short or less than 30 behind |
| `CryptRuns.LateMovesNonce` | mumble-protocol/src/crypt.rs:186-198 | an input whose rejection moves the nonce |
| `CryptRuns.RepeatExactly` | mumble-protocol/src/crypt.rs:189-193 | a datagram in the late window is a repeat if and only if it was accepted before or its slot is mistaken |
| `CryptRuns.FalseRepeatExists` | mumble-protocol/src/crypt.rs:189-193 | an input reported as a repeat that was never seen |
| `CryptReplay.AliasedRepeatExists` | mumble-protocol/src/crypt.rs:189-193 | after 1026 accepted datagrams nonce 65537 is a repeat because nonce 1 was accepted, and was never seen |
| `CryptChannel.OpenSealed` | mumble-protocol/src/crypt.rs:145-206 | what one side seals the other opens under the same nonce |
| `CryptChannel.OneArrival` | mumble-protocol/src/crypt.rs:164-221 | in the window [-29, 127] the nonce is rebuilt exactly and the packet comes out unless it is a repeat |
| `CryptChannel.ArrivalOutcome` | mumble-protocol/src/crypt.rs:145-221 | over lossy, duplicating, reordering deliveries each arrival yields its packet or a repeat, and always its packet when ahead |
| `CryptChannel.OutputOnce` | mumble-protocol/src/crypt.rs:145-221 | no packet is output twice, however often it arrives |
| `CryptReplay.AcceptedAgainExactly` | mumble-protocol/src/crypt.rs:176-215 | a datagram accepted ahead that arrives again after any one other datagram is accepted twice if and only if that one points 30 to 127 back |
| `CryptReplay.AcceptedTwiceAfterLate` | mumble-protocol/src/crypt.rs:186-198 | three datagrams, the second without a key, that make a receiver output one packet twice |
| `Varint.ReadWrite` | mumble-protocol/src/varint.rs:28-125 | every 64-bit number followed by any bytes reads back, leaving those bytes |
| `Varint.PrefixFree` | mumble-protocol/src/varint.rs:77-125 | no encoding is a prefix of another |
| `Varint.NegationsFlip` | mumble-protocol/src/varint.rs:30-32 | in front of any bytes, any number of negation prefixes complements what is read that many times and changes nothing else |
| `Varint.NegationChain` | mumble-protocol/src/varint.rs:28-125 | a written number behind any number of negation prefixes is read back, complemented or not |
| `Varint.WriteLength` | mumble-protocol/src/varint.rs:77-125 | the exact length of every encoding, at most 10 bytes |
| `Varint.WriteIsShortest` | mumble-protocol/src/varint.rs:28-125 | anything that reads as a number is at least as long as its encoding, up to 9 bytes |
| `Varint.ReadVarint` | mumble-protocol/src/varint.rs:28-73 | the byte-by-byte reader returns what the format says and fails only at the end of the data, for any chain of negations |
| `Varint.WriteVarint` | mumble-protocol/src/varint.rs:77-125 | the writer appends exactly the encoding |
| `VarintBytes.WrittenBytes` | mumble-protocol/src/varint.rs:77-125 | every byte of every encoding: the mark and the top bits first, then the rest from the most significant byte down |
| `VarintBytes.ReadForm` | mumble-protocol/src/varint.rs:33-71 | what each plain form reads as, also forms the writer does not choose |
| `VarintBytes.ReadPrefixed` | mumble-protocol/src/varint.rs:30-32 | what follows a negation prefix is complemented; the last four first bytes are the complements of 0 to 3 |
| `VarintBytes.ReadEof` | mumble-protocol/src/varint.rs:28-73 | reading fails if and only if the bytes the first one calls for are not there |
| `VarintBytes.WrittenTruncated` | mumble-protocol/src/varint.rs:28-125 | no beginning of an encoding reads as a number |
| `Voice.DecodedIsWellFormed` | mumble-protocol/src/voice.rs:140-214 | decoding any bytes yields only well-formed packets |
| `Voice.RoundTrip` | mumble-protocol/src/voice.rs:140-276 | in both directions a packet survives encoding and decoding if and only if it is well-formed |
| `Voice.Normalisation` | mumble-protocol/src/voice.rs:140-276 | decode, encode, decode is decode |
| `Voice.ReencodedLength` | mumble-protocol/src/voice.rs:140-276 | a decoded serverbound packet encoded again is at most two bytes longer than its bytes |
| `VoiceBytes.Layout` | mumble-protocol/src/voice.rs:222-276 | every well-formed packet as it is written: first byte by kind and target, session, sequence number, frame list or Opus length and frame, position |
| `VoiceBytes.DecodesExactly` | mumble-protocol/src/voice.rs:140-214 | the decoder accepts exactly the strings of the grammar, gives each the packet it denotes, and takes all of an audio packet |
| `VoiceBytes.FailsExactly` | mumble-protocol/src/voice.rs:140-214 | kinds 5 to 7 are unknown if and only if session and sequence number are complete; everything else that fails is cut short |
| `VoiceBytes.CutShortExactly` | mumble-protocol/src/voice.rs:140-214 | any well-formed packet cut short anywhere: refused inside its fields, taken with less position information behind them |
| `Voice.FramesRoundTrip` | mumble-protocol/src/voice.rs:153-172 | non-empty lists of frames under 128 bytes survive the continuation-bit encoding, whatever follows |
| `Voice.OpusRoundTrip` | mumble-protocol/src/voice.rs:180-191 | frame and termination bit survive while the length leaves bit 0x2000 clear |
| `Voice.SessionRoundTrip` | mumble-protocol/src/voice.rs:111-131 | the session id is written and read only clientbound |
| `Voice.TakeFrames` | mumble-protocol/src/voice.rs:153-172 | the decoder's frame loop, with what it leaves in the buffer when frames are cut short |
| `Voice.DecodeVoice` | mumble-protocol/src/voice.rs:140-214 | result and remaining buffer on every input, errors included; every access is in bounds |
| `Voice.EncodeVoice` | mumble-protocol/src/voice.rs:222-276 | the encoder appends exactly the encoding |
| `Voice.PutFrames` | mumble-protocol/src/voice.rs:256-261 | the encoder's frame loop |
| `Framing.ChunkingIndependence` | mumble-protocol/src/control.rs:67-86 | packets, error status and left-over bytes depend on the stream, not on its chunks |
| `Framing.RoundTrip` | mumble-protocol/src/control.rs:67-101 | a list of packets comes back whole if and only if none exceeds 0x7fffff bytes |
| `Framing.DrainOfFrames` | mumble-protocol/src/control.rs:67-101 | packets before any further bytes come out first and unchanged |
| `Framing.DrainExactly` | mumble-protocol/src/control.rs:67-101 | of any packets sent, those before the first over 0x7fffff bytes come out, and decoding fails if and only if there is one |
| `Framing.DecodeRaw` | mumble-protocol/src/control.rs:67-86 | one packet is taken if complete; otherwise nothing is consumed |
| `Framing.EncodeRaw` | mumble-protocol/src/control.rs:92-101 | id, 32-bit length and bytes are appended |
| `FramingBytes.FrameBytes` | mumble-protocol/src/control.rs:92-101 | the six header bytes of every frame |
| `FramingBytes.NextExactly` | mumble-protocol/src/control.rs:67-86 | what the decoder does with any id, length and following bytes, the limit being 0x7fffff |
| `FramingBytes.EveryHeader` | mumble-protocol/src/control.rs:69-72 | any six bytes are a header with an id and a length |
| `FramingBytes.VoiceIsPacketOne` | mumble-protocol/src/control.rs:191-226 | voice is carried by packets of id 1 and no others, as its own encoding |
| `Framing.Receive` | mumble-protocol/src/control.rs:67-86 | buffering a chunk and decoding raw packets until none is complete is the drain of the whole buffer |
| `Tunnel.OneHop` | mumble-protocol/src/control.rs:191-226 | tunnelled voice that fits is heard exactly, for any chunking |
| `Tunnel.MixedHop` | mumble-protocol/src/control.rs:145-226 | for any chunking, the voice packets before the first control packet that is too long come out in order, and the connection fails if and only if there is one |
| `Tunnel.MixedHopExactly` | mumble-protocol/src/control.rs:145-226 | when only voice can be too long, what comes out is the voice before the first long packet: all of it if and only if none is long |
| `Tunnel.HeardBounds` | mumble-protocol/src/control.rs:204-226 | whatever bytes arrive, the voice a connection yields is well-formed and encodes to at most two bytes over the limit |
| `Tunnel.HeardWellFormed` | mumble-protocol/src/control.rs:204-226 | whatever bytes arrive, tunnelled voice that converts is well-formed |
| `Tunnel.DecodeControl` | mumble-protocol/src/control.rs:145-152 | one control packet with its voice converted; a frame too long or voice that does not decode fails |
| `Tunnel.RestampBytes` | stammer/src/task_routing.rs:36-45 | on the wire the packet for listeners is the speaker's, every byte kept, with the id put in behind the first |
| `Tunnel.RestampKeeps` | stammer/src/task_routing.rs:36-45 | target, sequence number, payload and position are the speaker's |
| `Tunnel.RestampFitsExactly` | stammer/src/task_routing.rs:36-45 | the packet rebuilt for listeners fits a frame if and only if there is room for the id |
| `RoutingTables.HistoryConsistent` | stammer/src/routing_table.rs:35-70 | every sequence of enrolments of new ids, expulsions and moves keeps membership a two-way bijection |
| `RoutingTables.EnrollKeepsConsistencyExactly` | stammer/src/routing_table.rs:35-44 | enrolling keeps it if and only if the id is new or already in the default room |
| `RoutingTables.EnrollExactly` | stammer/src/routing_table.rs:35-44 | the session is in room 0 alone, with its version and sender; nobody else is touched |
| `RoutingTables.ExpelExactly` | stammer/src/routing_table.rs:46-52 | the session is in no map and no room; nobody else is touched, and the room stays |
| `RoutingTables.MoveExactly` | stammer/src/routing_table.rs:54-70 | the session is in its destination alone, with its version and sender; nobody else is touched, and no room goes |
| `RoutingTables.MoveConsistent` | stammer/src/routing_table.rs:54-70 | moving keeps it, also into the same room |
| `RoutingTables.RoutingTable.EnrollSession` | stammer/src/routing_table.rs:35-44 | the maps after enrolment |
| `RoutingTables.RoutingTable.ExpelSession` | stammer/src/routing_table.rs:46-52 | the maps after expulsion; "bad memberships" is unreachable |
| `RoutingTables.RoutingTable.MoveSession` | stammer/src/routing_table.rs:54-70 | the maps after a move; "bad memberships" is unreachable |
| `RoutingTables.RoomSenders` | stammer/src/routing_table.rs:84-100 | each sender as often as it reaches a member other than the excluded one, in any order of the member set |
| `RoutingTables.TargetSenders` | stammer/src/routing_table.rs:72-82 | target 0 of a held session never hits the room unwrap; the three outcomes exactly |
| `Tasks.ControlTask.HandlePacket` | stammer/src/task_control.rs:86-118 | enrolment and publication for a first Authenticate, dropping of the session for anything else |
| `Tasks.ControlTask.RemoveSession` | stammer/src/task_control.rs:58-69 | removal from either map, publication when the table changed |
| `Tasks.ControlTask.Handle` | stammer/src/task_control.rs:43-76 | one message does what the transition system says, with every expectation met |
| `Tasks.ControlTask.Run` | stammer/src/task_control.rs:42-80 | while others keep sending, the loop serves in order everything sent before its channel closes, also behind the stop message, terminates and then stops the routing task; only a stop message cuts off senders |
| `Tasks.Mailboxes.SendAll` | stammer/src/task_routing.rs:47-51 | the send loop gives each live session as many copies as it is listed |
| `Tasks.TextSenders` | stammer/src/task_routing.rs:64-70 | the chained recipients list each sender as often as named plus as often as its room is, up to a room that does not exist |
| `Tasks.RoutingTask.RouteVoice` | stammer/src/task_routing.rs:27-56 | the stamped packet goes to the speaker's room, nothing for an unknown speaker, pings and other targets unsupported |
| `Tasks.RoutingTask.RouteText` | stammer/src/task_routing.rs:59-79 | the actor is overwritten and copies follow the recipients; a room that does not exist panics after the copies before it |
| `Tasks.RoutingTask.Handle` | stammer/src/task_routing.rs:25-92 | one message does what the transition system says |
| `Tasks.RoutingTask.Run` | stammer/src/task_routing.rs:19-95 | while others keep sending, the loop routes in order everything sent before its channel closes, also behind the stop message, unless an unsupported message ends it |
| `Tasks.ForwardPacket` | stammer/src/task_session.rs:88-130 | each kind of client packet goes to its task, and is dropped when that task is closed |
| `ServerShutdown.StepInv` | stammer/src/task_control.rs:42-80 | every step of every task keeps the shutdown and the snapshot invariant |
| `ServerShutdown.ReachableInv` | stammer/src/lib.rs:14-67 | they hold in every reachable state |
| `ServerDrain.ExpectationsHold` | stammer/src/task_accept.rs:62-63 | no "cannot be closed yet", "bad memberships" or room expectation ever fails |
| `ServerDrain.PanicsExactly` | stammer/src/task_routing.rs:24-92 | a reachable server panics if and only if it routes a ping, a non-zero target or a text to an unknown room |
| `ServerDrain.SnapshotsInSync` | stammer/src/task_control.rs:101-107 | the routing task's table with its queued updates applied is the control task's table, and every snapshot is consistent |
| `ServerDrain.StopsSent` | stammer/src/task_accept.rs:62-63 | a run contains one stop of the accept task once it has stopped listening, one end of the control task once that is down, and none before |
| `ServerDrain.ClosingOrder` | stammer/src/task_control.rs:72-80 | the control queue closes only after accept's stop message, the routing queue only after the control task has drained and ended, and over a whole run each of the two stop messages is sent at most once |
| `ServerDrain.NoSenderSurvives` | stammer/src/task_session.rs:134-140 | once control and routing have returned no sender to any session is left |
| `ServerDrain.InternalStepsDrain` | stammer/src/task_routing.rs:88-91 | every step the server takes by itself strictly decreases the work left |
| `ServerDrain.NeverStuck` | stammer/src/task_accept.rs:65-71 | a stopped server without a panic has an own step until control and routing have returned, every session has stopped or is still in its version exchange, and accept has returned unless there is such a session |
| `ServerDrain.IdleExactly` | stammer/src/task_accept.rs:62-73 | a stopped server has no own step left if and only if it panicked on an unimplemented path or is at that rest |
| `ServerDrain.RestIsStopped` | stammer/src/task_accept.rs:62-73 | however scheduled, when no own step is left the server panicked on an unimplemented path, or control and routing have returned, exactly the sessions past their version exchange have stopped, and everything has returned if and only if no session was in that exchange |
| `ServerDrain.ShutdownCompletes` | stammer/src/task_accept.rs:62-73 | from every state of a stopped server there is a finite run of own steps to such an end |
| `ServerDrain.SilentClientBlocks` | stammer/src/task_session.rs:175-190 | a run with one silent client that ends with no own step left and the accept task still waiting |
| `ServerStop.StopCannotBePutOff` | stammer/src/task_control.rs:72-75 | whatever clients do, the control queue is closed if and only if the control task has taken the messages that were ahead of the stop message, and that one |
| `ServerStop.ClosedQueueDrains` | stammer/src/task_control.rs:72-80 | once closed, the control queue loses exactly the messages the control task takes and gains none |
| `ServerStop.RoutingStopCannotBePutOff` | stammer/src/task_routing.rs:88-91 | the same of the routing queue, once the control task has ended |
| `ServerStop.ClosedRoutingDrains` | stammer/src/task_routing.rs:88-95 | once closed, the routing queue loses exactly the messages the routing task takes and gains none |
| `ServerStop.SessionsRunDown` | stammer/src/task_session.rs:46-51 | when both have returned, packets from clients change nothing and every other step, of clients too, leaves less to do |
| `ServerStop.LastStepsAreBounded` | stammer/src/task_accept.rs:65-71 | from then on no run has more other steps than work was left |
| `ServerLifecycle.StepStatus` | stammer/src/task_control.rs:45-69 | every step keeps each session in its stage: unseen, declared, waiting, enrolled or gone |
| `ServerLifecycle.LifecycleHolds` | stammer/src/task_control.rs:86-118 | with at most 2^32 connections: never waiting and enrolled at once, own channel, first forwarded packet an Authenticate |
| `ServerLifecycle.IdsAreUnique` | stammer/src/task_accept.rs:41 | connection counts below 2^32 give distinct ids |
| `ServerLifecycle.NeverReturns` | stammer/src/task_session.rs:46-51 | an id that has left both maps is in neither ever again |
| `ServerControl.RemovalHandled` | stammer/src/task_control.rs:58-69 | in every reachable state a removal takes the session out of both maps and every room, touches nobody else, and publishes one table if it was enrolled |
| `ServerControl.PacketHandled` | stammer/src/task_control.rs:86-118 | in every reachable state a packet enrols a waiting session that authenticates, drops one that does not, and else changes nothing |
| `ServerControl.OthersHandled` | stammer/src/task_control.rs:53-75 | a declaration waits with its version and channel; a stop message closes the queue and nothing else |
| `ServerControl.SessionSends` | stammer/src/task_session.rs:46-51 | what a session sends about itself when it declares itself and when it leaves |
| `ServerControl.RemovedForGood` | stammer/src/task_control.rs:58-69 | once the removal of a session has been handled, it is never known again in any run |
| `ServerControl.NoneLeftBehind` | stammer/src/task_session.rs:67-84 | while the server runs, a session that has ended is known only as long as its removal is queued; with an empty queue every known session is live |
| `ServerVoice.VoiceFanOut` | stammer/src/task_routing.rs:29-51 | exactly one copy, with the true speaker and the same target, sequence number, payload and position, for each other live member of the speaker's room, none for anyone else |
| `ServerVoice.TextFanOut` | stammer/src/task_routing.rs:59-78 | copies equal times named plus times the own room is named, none when not enrolled, actor always the true sender; with an unknown room this holds of the rooms before it, and the task panics |
| `ServerVoice.VoiceInOrder` | stammer/src/task_session.rs:90-94 | over every run what a listener hears of a speaker are, in order, packets the speaker's session forwarded, field by field the same but for the id |
| `ServerVoice.NeverHearsItself` | stammer/src/routing_table.rs:84-100 | over every run no session is offered its own voice |
| `ServerEndToEnd.SpokenExactly` | stammer/src/task_session.rs:88-94 | while the routing queue is open a session forwards every voice packet it takes, in order |
| `ServerEndToEnd.Provenance` | stammer/src/task_routing.rs:27-52 | every voice packet offered to anyone was taken from a client by the session whose id it carries, with nothing else changed |
| `ServerEndToEnd.DeliveredInTransit` | stammer/src/task_session.rs:134-144 | what a session wrote to its client, with its inbox, is what it was offered, and stays a prefix of it when the session stops |
| `ServerEndToEnd.DownlinkExactly` | stammer/src/task_session.rs:143-144 | what a listener's client decodes of the voice delivered to it: all before the first control packet that is too long, all of it if and only if no delivered packet is when only voice can be |
| `ServerEndToEnd.EndToEnd` | stammer/src/task_routing.rs:27-52 | over every run, from connections in arbitrary chunks: what a listener decodes under the speaker's id are, in order, packets of the speaker with target, sequence number, payload and position the same, and never its own; of the voice delivered to it, it decodes what comes before the first control packet over 0x7fffff bytes, where its connection fails |
| `ServerWitness.SomeoneHears` | stammer/src/task_routing.rs:27-52 | for every audio packet with target 0, a run of two clients in which the second is sent what the first said |
| `ServerWitness.ConversationExactly` | mumble-protocol/src/control.rs:73-101 | in that run the second client hears the stamped packet if there is room for the id in its frame, and else its connection fails |
| `ServerWitness.LongPacketOnlyFitsUplink` | mumble-protocol/src/control.rs:73-101 | a packet the server takes that no listener takes once it is stamped, whoever the speaker is |
| `ServerWitness.LongPacketCutsOff` | mumble-protocol/src/control.rs:73-101 | that packet in that run: the second client hears nothing and its connection has failed |
| `Reframer.Microphone.Outbound` | stutter/src/task_audio_codec.rs:40-73 | one buffer: what fits is pushed, frames are popped and sent until refused |
| `Reframer.KeptFrames` | stutter/src/task_audio_codec.rs:29-73 | for any buffers: of each one the leading samples that find room are kept, and what is sent and held is the kept stream cut into frames, up to the end of the connection |
| `Reframer.SentFrames` | stutter/src/task_audio_codec.rs:40-73 | exactly the leading frames of the concatenated input are sent, up to the end of the connection, when every buffer fits |
| `Reframer.NothingLost` | stutter/src/task_audio_codec.rs:40-73 | frames then ring are the whole input, all frames 960 samples, fewer than 960 left |
| `Reframer.NothingLostExactly` | stutter/src/task_audio_codec.rs:29-73 | frames then ring are the whole input if and only if each buffer fits beside what is waiting and the connection takes every full frame |
| `Reframer.SmallBuffersFit` | stutter/src/task_audio_codec.rs:29-49 | buffers of at most 95041 samples always fit |
| `Reframer.LargerMayNotFit` | stutter/src/task_audio_codec.rs:29-49 | 95042 samples behind 959 do not, and one is dropped |

## Left out

- AES, OpenSSL, key generation and constant-time comparison: the cipher is any pair of inverse functions.
- Protobuf bodies and packet ids other than UDPTunnel: payloads are uninterpreted bytes, so conversion errors of other packets are not modelled.
- `ping.rs`: fixed layouts, easy next to the other codecs.
- TCP, TLS, `select!`, timers, keepalive, pings of a session and logging: I/O; a timeout or I/O error is the step `Leave`, a choice among ready events is nondeterminism.
- The accept loop and the session event loop exist as steps of the transition system; only the forwarding of a client packet is also given as code.
- `ControlTask.Run` and `RoutingTask.Run` see other tasks as batches of messages arriving between their own steps; what others do meanwhile to the channels they send to is in the transition system only.
- A client that never reads: `ToClient` is a step that can always be taken, so the shutdown theorems assume clients read or drop their connection.
- Runs of the receiver with a far too late datagram or a reset nonce: the run theorems are about runs without them.
- `Voice.Encode` of a packet whose session does not match its direction: the source's types rule it out.
- What `decrypt` leaves in the caller's buffer.
- Control packets of 2^32 bytes or more, whose length wraps in the frame header, on the connections of `ServerEndToEnd`; voice is shown to stay below that.
- Opus encoding and decoding, the inbound half of the audio task, audio devices, the client connection, `main.rs`, `build.rs` and the echo example.
- Delivery of text only from authenticated sessions is not claimed: the source does not look up the sender of a text.
