# SDTL relay and endpoint, modelled in Dafny

SDTL tunnels IPv4 packets over UDP between hosts that each hold an ECDSA
identity key. A host opens a session with a signed *Start* (76 bytes: virtual
IPv4 address, 8-byte session id, signature). It then exchanges signed 137-byte
handshake messages (session id, 65-byte ephemeral P-256 key, signature). The
ECDH output becomes the AES-GCM key. Data travels in *data frames*:
`nonce(12) ‖ tag(16) ‖ ciphertext`, behind a two-byte header
`[0xDF, type]`.

The relay (server.go) keeps a registry of configured hosts (map.go). A record
is keyed both by virtual address and by current public UDP address. The relay
forwards each frame by opening it with the sender's key, reading the IPv4
destination and resealing the frame for the destination host.

socket.go is a point-to-point endpoint. It runs the same handshake as
initiator (`Connect`) or as responder (`Accept`), with a retry schedule.

The model is functional:

- Byte strings are `seq<bv8>` and fixed arrays are subset types.
- The registry's shared pointers become record ids in a `map`.
- Go's run-time panics become an explicit `Panic` error or a `Crashed` outcome.
- Cryptography is a record of uninterpreted functions (`Crypto.Suite`). The
  lemmas that need facts about it take them as ghost predicates:
  - `SignatureSound`: a signature verifies under the signer's public key.
  - `SealLength` and `OpenLength`: GCM adds or strips exactly a 16-byte tag.
  - `SealOpens`: opening what was sealed gives back the plaintext.
  - `AgreementSound`: ECDH is symmetric.
- Randomness and the clock are parameters. The relay takes an `Entropy` per
  datagram; the endpoint takes the outcome of key generation and a random
  session id.
- The network is a trace of read events `Timeout | Datagram | ReadError`,
  consumed in order, plus a function saying whether the k-th write succeeds.

Files:

| file | models |
|---|---|
| `bytes.dfy` | bytes, Go's `copy`, `binary.BigEndian`, the `Option`/`Result`/`Error` types |
| `net.dfy` | `net.IP` in its 4- and 16-byte forms, `To4`, UDP addresses as their `String()` |
| `crypto.dfy` | the abstract suite and the cipher wrapper (`newCipher`, `SharedSecret`, `Encrypt`, `Decrypt`) |
| `handshake.dfy` | handshake.go, plus `packHandShakeMessage` |
| `dataframe.dfy` | data.go |
| `session.dfy` | helper.go |
| `registry.dfy` | map.go |
| `relay.dfy`, `relay_props.dfy` | server.go: the three handlers and one iteration of `ListenAndServe` |
| `socket.dfy`, `socket_props.dfy` | socket.go |

## Behaviour kept as written

Several behaviours look unintended. They are modelled exactly as the code
behaves, and a lemma exhibits each one:

- **Length checks never fire at the relay.** `handleSTR` and `handleCHS` decode
  `buffer[2:]`, which is the whole 2046-byte tail of the zero-filled receive
  buffer, not `buffer[2:n]`. Their length checks therefore never fire, and a
  short datagram is handled as if zero-padded (`RelayProps.HandshakeLengthIgnored`).
- **Unknown message types are echoed.** A datagram of a type other than 0x01,
  0x03 or 0xAA (0x02 included) goes back to its sender unchanged. The loop's
  `err` is never reset (`Relay.Dispatch`).
- **Old public bindings survive.** A successful Start binds the new sender
  address without removing the record's earlier binding. `close` removes only
  the current one, so the old address keeps reaching the record
  (`RelayProps.StaleBindingSurvivesClose`).
- **`close` keeps the session id** (`Registry.Close`).
- **The relay can crash.** A repeated Start whose key generation fails leaves
  a record in HandShakeServerSent with no cipher. The next valid client
  response then dereferences nil, and the relay crashes
  (`RelayProps.FailedRestartCrashesRelay`).
- **`handShakeServer` succeeds even when it cannot sign.** If signing its
  handshake message fails, it returns success without sending anything. The
  cipher it keeps has no shared key (`Socket.HandShakeServer`).
- **A nil cipher crashes the responder.** If key generation fails in
  `handShakeServer`, the nil cipher is dereferenced (`Socket.HandShakeServer`).
- **The zeroed signature is re-signed.** The initiator zeroes the signature of
  its response, but `dump` re-signs it, so a valid signature goes out
  (`SocketProps.ResponseAccepted`).
- **The initiator's Start names no host.** It never sets its `ip` field, so the
  Start names 0.0.0.0, and a relay looks it up under key 0
  (`SocketProps.ClientStartNamesNoHost`).
- **Opening a frame writes past the datagram.** `loadDataFrame` appends the
  tag to a slice of the relay's receive buffer, so the tag lands at
  [n, n+16) of that buffer (`Relay.AfterLoad`). The forwarded datagram is
  unaffected, because the writer sends only `buffer[:n]`
  (`RelayProps.ForwardedDatagram`).
- **The two filters check different bytes.** The responder filters the first
  Start on version and type, but filters the client response on the type byte
  only (`SocketProps.ResponseIgnoresVersion`). The initiator's filter indexes
  byte 1 of a one-byte datagram whose first byte is 0xDF, which panics
  (`Socket.ScreenReply`).

## Model

| member | source | states |
|---|---|---|
| `Bytes.BigEndianRoundTrip` | map.go:52 | re-encoding the big-endian `uint32` of four bytes gives back the four bytes |
| `Bytes.BigEndianInjective` | map.go:47-53 | two 4-byte addresses have the same `uint32` key exactly when they are equal |
| `Net.To4` | map.go:48 | `To4` succeeds exactly on 4-byte addresses and IPv4-mapped 16-byte addresses, and yields their last four bytes |
| `Crypto.NewCipher` | ecdh.go:24-35 | a cipher exists exactly when key generation succeeded; it holds the generated key and no shared secret |
| `Crypto.SharedSecret` | ecdh.go:41-51 | succeeds exactly when agreement with the remote key succeeds; the cipher then holds that secret and the same key pair |
| `Crypto.Encrypt` | ecdh.go:53-75 | fails on a missing or wrongly sized AES key, then on a failed nonce draw; otherwise the ciphertext is the sealed body followed by the 16-byte tag, `tagOffset` separates the two, and the drawn nonce is carried |
| `Crypto.Decrypt` | ecdh.go:77-98 | succeeds exactly when the key is a valid AES key, the nonce is 12 bytes and GCM opens the ciphertext; returns the opened plaintext |
| `Crypto.EncryptDecryptRoundTrip` | ecdh.go:53-98 | under the GCM round trip, decrypting what was encrypted with the same cipher returns the data |
| `Handshake.ExtractIP` | handshake.go:43-45 | the address is the first four bytes of the buffer in IPv4-mapped form |
| `Handshake.DumpStart` | handshake.go:47-59 | 76 bytes: ip at [0,4), session at [4,12), and at [12,76) the signature of exactly [0,12); a signing failure is an error |
| `Handshake.LoadStart` | handshake.go:61-74 | input shorter than 76 bytes is an error; otherwise it succeeds exactly when the signature at [12,76) verifies over [0,12), and decodes the three fields |
| `Handshake.DumpHandShake` | handshake.go:80-91 | 137 bytes: session at [0,8), ephemeral key at [8,73), and at [73,137) the signature of exactly [0,73) |
| `Handshake.LoadHandShake` | handshake.go:93-106 | input shorter than 137 bytes is an error; otherwise it succeeds exactly when the signature at [73,137) verifies over [0,73), and decodes the three fields |
| `Handshake.Size` | handshake.go:76-110 | a Start is 76 bytes and a key message 137, and the size alone tells the two kinds apart |
| `Handshake.Dump` | handshake.go:24-28 | through the message interface, `dump` yields exactly `size()` bytes and keeps the message kind |
| `Handshake.PackHandShakeMessage` | socket.go:21-31 | fails exactly when `dump` fails, with its error; otherwise 2+size bytes: version, type, then the dumped body |
| `Handshake.StartRoundTrip` | handshake.go:47-74 | under sound signatures, loading a dumped Start with the signer's public key succeeds and restores ip and session |
| `Handshake.HandShakeRoundTrip` | handshake.go:80-106 | under sound signatures, loading a dumped handshake message succeeds and restores session and ephemeral key |
| `Handshake.LoadStartIgnoresTrailing` | handshake.go:61-74 | bytes after the first 76 never change the result of loading a Start |
| `Handshake.LoadHandShakeIgnoresTrailing` | handshake.go:93-106 | bytes after the first 137 never change the result of loading a handshake message |
| `Handshake.DumpOverwritesSignature` | handshake.go:53-57 | whatever the signature field held before `dump`, the output is the same |
| `Handshake.ExtractIPIsStartIP` | handshake.go:43-45 | the relay's address extraction reads exactly the ip field that `load` decodes |
| `DataFrame.Reassemble` | data.go:19-29 | nonce is bytes [0,12); the ciphertext is bytes [28,…) followed by the tag from [12,28), with the tag offset 16 before its end |
| `DataFrame.Layout` | data.go:37-40 | the frame is 12 bytes longer than the AEAD output: nonce at [0,12), tag at [12,28), ciphertext body from 28 |
| `DataFrame.LoadDataFrame` | data.go:14-30 | anything shorter than 28 bytes, the empty frame included, is an error before the key is used; otherwise it succeeds exactly when GCM opens the reassembled ciphertext under the frame's nonce |
| `DataFrame.DumpDataFrame` | data.go:32-42 | an `Encrypt` error is returned as is; otherwise the frame is nonce, then tag, then ciphertext body of the seal of the data |
| `DataFrame.LayoutRoundTrip` | data.go:14-42 | reassembling a laid-out frame gives back the exact AEAD output, nonce and tag offset |
| `DataFrame.DumpLength` | data.go:37 | a frame is 28 bytes longer than the data it carries |
| `DataFrame.LoadLength` | data.go:14-30 | with GCM stripping exactly the tag, a loaded packet is 28 bytes shorter than its frame |
| `DataFrame.DumpLoadRoundTrip` | data.go:14-42 | under the GCM round trip, loading a dumped frame with the same cipher returns the data |
| `Session.PackIPinSession` | helper.go:8-14 | bytes 0-3 are the 4-byte form of the address, or zero when it has none; bytes 4-7 are the random draw, unconstrained |
| `Session.UnpackIPfromSession` | helper.go:16-20 | the address is the IPv4 address of bytes 0-3 |
| `Session.UnpackReadsPrefixOnly` | helper.go:16-19 | sessions that agree on bytes 0-3 unpack to the same address |
| `Session.PackUnpackRoundTrip` | helper.go:8-20 | unpacking a packed IPv4 address gives it back, for every random suffix |
| `Registry.NewConnTable` | map.go:37-45 | the table starts with both maps empty and satisfies the registry invariant |
| `Registry.IpToUint32` | map.go:47-53 | succeeds exactly on addresses with a 4-byte form; the key is its big-endian value; otherwise "invalid address" |
| `Registry.IpToUint32Forms` | map.go:47-53 | the 4-byte and the IPv4-mapped 16-byte form of an address give the same key |
| `Registry.IpToUint32Injective` | map.go:47-53 | two addresses get the same key exactly when their 4-byte forms are equal |
| `Registry.AddPrivate` | map.go:55-72 | invalid address and duplicate key are errors; otherwise exactly one new private entry, for a new closed record with the given key and address; the public map is untouched |
| `Registry.AddPrivateKeepsValid` | map.go:55-72 | adding a host keeps the registry invariant |
| `Registry.AddPublic` | map.go:74-76 | the address is bound to the record, and every other binding, record and private entry is unchanged |
| `Registry.AddPublicKeepsValid` | map.go:74-76 | binding a record that has a verification key keeps the registry invariant |
| `Registry.StoreKeepsValid` | map.go:18-31 | writing through a record pointer keeps the invariant when the address and key fields stay the same |
| `Registry.Close` | map.go:78-91 | nil is a no-op; otherwise the cipher is dropped, the time reset and the state closed; the binding under the record's own public address is removed and the address cleared; session, key and private map stay |
| `Registry.CloseIdempotent` | map.go:78-91 | closing twice is closing once |
| `Registry.CloseKeepsValid` | map.go:78-91 | closing keeps the registry invariant |
| `Registry.CloseShrinks` | map.go:78-91 | `close` changes neither the private map nor any record's address or key, and only removes public bindings |
| `Registry.GetConnectionByPublic` | map.go:93-99 | the record bound to the address's string, or "not found" exactly when none is bound |
| `Registry.GetConnectionByPrivate` | map.go:101-111 | "invalid address" without a 4-byte form; otherwise the record under its key, or "not found" exactly when the key is absent |
| `Relay.Receive` | server.go:32-36 | the datagram sits at the front of a zero-filled 2048-byte buffer and `n` is its length |
| `Relay.ParseHeader` | server.go:76-79 | a packet shorter than the 20-byte IPv4 header is rejected; an accepted header yields the destination at octets 16-19 |
| `Relay.StartBody` | server.go:114 | what `handleSTR` decodes is the 2046 bytes after the header, whatever the datagram's length |
| `Relay.StartTarget` | server.go:103-108 | the record a Start selects is the one filed under the `uint32` of body bytes 0-3, before any signature check |
| `Relay.HandleSTR` | server.go:97-140 | unknown address, missing key or bad signature: error, table unchanged; failed key generation drops only the cipher; a verified Start is answered exactly when a key is generated and the answer can be signed, and "impossible to pack" exactly when it cannot; success, from any state: HandShakeServerSent, session from the Start, sender bound as public address, and the datagram to the sender is exactly the signed 0x02 message with the Start's session and the new ephemeral key; when it cannot be signed, the record keeps its state but loses session, cipher and public address |
| `Relay.StartSession` | server.go:114-125 | the session id a verified Start yields is bytes 6-13 of the receive buffer |
| `Relay.Rebind` | server.go:119-139 | after a verified Start: failed key generation drops the cipher; an answer that cannot be signed clears session, cipher and public address and fails; otherwise the fresh cipher, session, sender and time are recorded, the sender is bound, and the datagram is exactly the signed 0x02 message with the session and the new key |
| `Relay.HandleCHS` | server.go:142-166 | unbound sender, wrong state, failed verification or session mismatch, missing cipher and failed agreement each give their own outcome, exactly when they occur and in that order; Ready is reached exactly when the response verifies with the bound session, the record holds a cipher and agreement with the response's key succeeds, and only state and cipher change; a missing cipher panics exactly when the response verifies |
| `Relay.Inbound` | server.go:65-79 | "invalid state" exactly when the sender is unbound, not Ready or without cipher; then "invalid message" exactly when the frame does not open under its cipher; then "invalid encapsulated" exactly when the packet has no IPv4 header; otherwise the sender, packet and destination |
| `Relay.AfterLoad` | data.go:21 | opening the frame `buffer[2:n]` leaves the datagram's n bytes alone; when the frame is at least 28 bytes and n + 16 fits the 2048-byte buffer, `append` writes the frame's tag at [n, n+16) of the receive buffer, and nothing else changes |
| `Relay.RouteMsg` | server.go:62-95 | nothing changes until the frame is opened and parsed; after that only the sender's time; a frame goes out exactly when the destination record is Ready with cipher and public address and the packet can be sealed for it, to that address, as [0xDF,0xAA] plus the resealed frame written over the buffer as `loadDataFrame` left it, with n = frame length + 2 |
| `Relay.Reseal` | server.go:81-94 | the table is left as it is; "no route to host" exactly when the destination is unknown or not Ready with cipher and public address; otherwise a datagram goes out exactly when sealing succeeds, to the destination's address, as [0xDF,0xAA] plus the packet sealed for it, with the rest of the buffer kept |
| `Relay.Dispatch` | server.go:181-212 | a read error ends the loop; a wrong version is dropped with `err` kept; a type outside {0x01,0x03,0xAA} is queued back to its sender with `err` kept; a Start continues with the Start handler's table and reply; a client response continues with the response handler's table, never produces a datagram, and crashes the loop exactly when that handler panics; a data frame continues with the router's table and reply; only a data frame produces a datagram for another address |
| `RelayProps.HandleSTRKeepsValid` | server.go:119-136 | `handleSTR` keeps the registry invariant |
| `RelayProps.HandleCHSKeepsValid` | server.go:160-164 | `handleCHS` keeps the registry invariant |
| `RelayProps.RouteMsgKeepsValid` | server.go:80 | `routeMsg` keeps the registry invariant |
| `RelayProps.DispatchKeepsValid` | server.go:191-203 | every iteration of the loop keeps the registry invariant |
| `RelayProps.Serve` | server.go:181-213 | the loop queues at most one datagram per input, each in a 2048-byte buffer, stops only on a read error, and a read error as the first input stops it with nothing queued |
| `RelayProps.ReadErrorEndsRun` | server.go:183-186 | a read error anywhere in the inputs ends the loop: the run is not still waiting afterwards |
| `RelayProps.ServeSplit` | server.go:181-213 | the loop is the iteration of one dispatch step: a run still going after a prefix of the inputs continues from the table and error that prefix left, queuing the prefix's datagrams then the rest's |
| `RelayProps.ServeOne` | server.go:181-213 | a single input runs one dispatch step: a read error stops, a response-handler panic crashes, otherwise the loop keeps the step's table and error and queues its datagram if any |
| `RelayProps.ServeKeepsValid` | server.go:181-213 | the registry invariant holds after any sequence of inputs |
| `RelayProps.RouteDelivers` | server.go:71-94 | with GCM's length and round-trip facts, a forwarded frame is as long as the incoming one and opens, under the destination's cipher, to the packet the sender sealed |
| `RelayProps.ReplyOpens` | server.go:85-94 | a frame copied over the buffer tail, with n set to its length plus 2, opens under the destination's cipher to the packet |
| `RelayProps.ForwardedDatagram` | server.go:52 | the bytes the writer sends, `buffer[:n]`, are exactly [0xDF,0xAA] and the resealed frame; what `loadDataFrame` wrote past the datagram never reaches the wire |
| `RelayProps.RouteForwards` | server.go:62-95 | a frame from a Ready sender that opens to an IPv4 packet for a deliverable host the packet can be sealed for is forwarded |
| `RelayProps.HandleSTRIgnoresCount` | server.go:103-138 | `handleSTR` never reads the datagram's byte count |
| `RelayProps.HandleCHSIgnoresCount` | server.go:156 | `handleCHS` never reads the datagram's byte count |
| `RelayProps.DispatchIgnoresCount` | server.go:191-198 | dispatching a Start or client response depends on the buffer only |
| `RelayProps.ReceivePadding` | server.go:32-36 | a datagram and the same datagram followed by zeros fill identical buffers |
| `RelayProps.HandshakeLengthIgnored` | server.go:114 | a short Start or client response is handled exactly like its zero-padded extension |
| `RelayProps.StaleBindingSurvivesClose` | server.go:124-136 | after a Start from a new address, the old address still reaches the record, even once the record is closed |
| `RelayProps.CloseLeavesOtherBinding` | map.go:78-91 | closing a record unbinds only its current public address; another address bound to it still resolves to it |
| `RelayProps.FailedRestartCrashesRelay` | server.go:119-122 | a Start whose key generation fails, on a record waiting for the client response, makes the next valid response crash the relay |
| `Socket.Matches` | socket.go:155-159 | a typed handshake reply is accepted exactly when it verifies, carries the expected session and comes from the peer |
| `Socket.ScreenReply` | socket.go:150-159 | the initiator accepts exactly version 0xDF, type 0x02 and a matching message; it faults on an empty datagram or a lone 0xDF |
| `Socket.ScreenResponse` | socket.go:252-259 | the responder accepts exactly type 0x03 and a matching message, never looking at the version; it faults on datagrams under 2 bytes |
| `Socket.Listen` | socket.go:137-164 | reading stops at the first accepted datagram, timeout, read error or fault; every datagram before it was dropped by the filter |
| `Socket.Retry` | socket.go:128-147 | at most `tries` copies of the packet are sent, the deadline doubling each time; "handshake timeout" only after all were sent; an accepted message comes from a datagram in the consumed trace |
| `Socket.RetryFirstRound` | socket.go:131-164 | no tries is a timeout with nothing sent; a failed first write is returned with nothing read; otherwise the first packet is sent and the first read round decides: an accepted datagram ends the handshake phase with that one packet sent, a read error or fault ends it with that error |
| `Socket.RetryWaits` | socket.go:131-164 | every event before the deciding one was dropped by the filter or was an expired deadline; success ends at the first datagram the filter takes, after exactly one expired deadline per resend; a timeout consumed exactly `tries` expired deadlines with only dropped datagrams between them |
| `Socket.ClientTimesOut` | socket.go:128-167 | when the initiator times out, the signed Start was written exactly three times with deadlines 1, 2 and 4 seconds, and its reads saw exactly three expired deadlines and only dropped datagrams |
| `Socket.ServerTimesOut` | socket.go:224-269 | when the responder times out, a Start was accepted, its reply was signed and written exactly three times with deadlines 1, 2 and 4 seconds, and the reads after the Start saw exactly three expired deadlines and only dropped datagrams |
| `Socket.RetrySchedule` | socket.go:128-147 | the deadlines are 1, 2 and 4 seconds, and a timeout failure follows exactly three sends of the packet |
| `Socket.HandShakeClient` | socket.go:116-192 | nothing is sent if the Start cannot be signed; every packet is the Start except, on success, the last; success means a reply passed the filter, the cipher holds the secret agreed with its key, and the last packet is the signed response |
| `Socket.ClientFinish` | socket.go:170-191 | after an accepted reply, each step's failure is the returned error in the code's order (key generation, agreement, signing, write); the handshake succeeds exactly when all four succeed, and then exactly one more packet, the signed response, was written with the cipher holding the agreed secret |
| `Socket.ScreenStart` | socket.go:208-215 | the responder accepts exactly version 0xDF, type 0x01 and a Start that verifies, from any sender |
| `Socket.AwaitStart` | socket.go:202-222 | the first phase reads until a Start is accepted; any failed read ends it; every datagram before the deciding event was a dropped non-Start |
| `Socket.HandShakeServer` | socket.go:194-273 | nothing is sent before a verified Start; key generation failure crashes; a signing failure returns success with nothing sent; success carries the Start's session, the peer and the generated key; every packet sent is the signed reply; success after sending means a response read after the Start passed the filter and the cipher holds the secret agreed with that response's key |
| `Socket.ServerFinish` | socket.go:240-271 | after an accepted response, the handshake fails exactly when agreement with its key fails; otherwise the cipher holds that secret, and the response is a datagram of the consumed trace that the filter took |
| `Socket.Connect` | socket.go:48-79 | an empty address is an error before anything opens; an address that does not resolve is that error, with the peer cleared; otherwise the peer is the resolved address, the outcome is the initiator handshake's, and the socket stays open exactly when it did not fail |
| `Socket.Accept` | socket.go:81-104 | a non-empty address that does not resolve is that error, with the peer cleared; otherwise the outcome is the responder handshake's with the resolved peer (or none), the socket stays open exactly when it did not fail, and success records peer, session and cipher |
| `Socket.Send` | socket.go:275-289 | a missing cipher panics; dump errors propagate; a frame past the 2048-byte buffer panics; a failed write is an error; succeeds exactly otherwise, and the datagram is [0xDF,0xAA] followed by the data frame |
| `Socket.Recv` | socket.go:291-312 | read errors are returned; a datagram from another address or with the wrong version or type yields nothing and no error; a frame under 28 bytes is "buffer too small" before the cipher is touched; a missing cipher then panics; a load error is returned; data comes out exactly when the frame opens under the cipher |
| `SocketProps.PackedHandShakeLoads` | socket.go:21-31 | under sound signatures, a packed handshake message decodes with the signer's key to its session and ephemeral key, carrying the real signature |
| `SocketProps.ResponseAccepted` | socket.go:181-191 | the responder accepts the initiator's response from the peer and learns its ephemeral key; the signature on the wire is the real one, not the zeroed field |
| `SocketProps.ReplyAccepted` | socket.go:224-228 | the initiator accepts the responder's reply from the peer and learns its ephemeral key |
| `SocketProps.RelayReplyAccepted` | server.go:123-138 | the datagram the relay answers a Start with is the endpoint responder's signed message for the Start's session, and the initiator accepts it and learns the relay's new key |
| `SocketProps.StartAccepted` | socket.go:122-123 | the responder accepts the initiator's Start and takes its session id |
| `SocketProps.ResponseIgnoresVersion` | socket.go:253 | the response filter gives the same verdict whatever the version byte |
| `SocketProps.ClientStartNamesNoHost` | socket.go:122 | the initiator's Start selects a relay record only if one is filed under 0.0.0.0 |
| `SocketProps.BothSidesAgree` | socket.go:175 | with symmetric agreement, both sides end with the same 32-byte AES key |
| `SocketProps.SendRecvRoundTrip` | socket.go:275-312 | what `Send` writes, received from the peer's address by an endpoint with the same key, comes out of `Recv` as the data sent |
| `SocketProps.HandshakesAgree` | socket.go:170-271 | when both handshakes succeed and the only signed handshake messages each side reads carry the other side's key, both ciphers hold the same 32-byte AES key |
| `SocketProps.KeyedPing` | socket.go:275-312 | two endpoints with the same 32-byte key: a packet that fits is sent by one and received intact by the other |
| `SocketProps.ClientCompletes` | socket.go:116-192 | with sound signatures and agreement, an initiator whose first read is the responder's signed reply from the peer succeeds after one read, having written the Start and the signed response, with the secret agreed with the reply's key |
| `SocketProps.ServerCompletes` | socket.go:194-273 | with sound signatures and agreement, a responder that reads the initiator's Start and then its signed response, both from the same sender, succeeds after two reads, having written its reply once, bound to that sender and the Start's session with the agreed secret |
| `SocketProps.PingArrives` | socket.go:275-312 | after `Connect` and `Accept` complete against each other, a packet the initiator sends arrives intact at the responder's `Recv` |

## Left out

- The cryptography itself is not modelled: ECDSA, P-256, AES and GCM. Only the
  branches that decide whether a call fails are. `signMessage`,
  `verifySignature`, the relay's own `packHandShakeMessage` and `createRandomSession` are
  not part of this model. The relay's packing function is taken to behave like
  the endpoint's.
- ecdh.go defines `Cipher`/`NewCipher`, while its callers use `aesCipher`/`newCipher`.
  The model treats them as one abstract cipher.
- `Crypto.SharedSecret`: a failed agreement leaves the cipher unchanged. In
  ecdh.go, when the remote key decodes but ECDH itself fails, `shared` is
  overwritten with nil. The endpoint callers close the socket after that
  failure. The relay's `handleCHS` keeps the record's cipher (server.go:160-163),
  but that cipher was stored by `handleSTR` as a fresh key with no shared
  secret (`Cipher(eph, None)`), so overwriting its secret with nil leaves it
  the same.
- `Relay.HandleCHS`: a record bound to a public address but holding no
  verification key is treated as a failed verification. `verifySignature` is
  not part of this model, and the registry invariant rules such a record out.
- Concurrency is not modelled: the reader and writer goroutines, the channels
  between them, and the shutdown sentinel. The relay loop consumes already-read
  datagrams. What it queues is reported, not written, so a reply longer than
  2048 bytes, which would panic in the writer, is not modelled.
- `ipv4.ParseHeader` is reduced to its 20-byte minimum plus an abstract
  acceptance predicate. The destination is taken from octets 16-19, per
  section 3.1 of RFC 791.
- Clock values are natural numbers, and the read deadlines are recorded rather
  than waited on.
- `net.ResolveUDPAddr` is the `resolve` parameter of `Socket.Connect` and
  `Socket.Accept`. Its own error text is not modelled; it is
  `AddressResolutionFailed`. `net.ListenUDP` and `net.ParseIP` are taken to
  succeed. A UDP address is identified with its `String()`.
- `Socket.Accept`: after a failed handshake, the endpoint's session and peer
  are not updated from the Start. The socket is closed by then.
- `Socket.Connect`: after a failed handshake the endpoint's cipher keeps its
  old value. Go holds the new cipher by then, or nil when key generation
  failed (socket.go:170). The socket is closed by then.
- SDTLServer, config.go, the tun device, forward.go and the command-line
  programs are not modelled. They are key files, JSON, OS interfaces and
  wiring.
- Logging and `fmt.Println` output are not modelled.
- socket.go's message-type constants `startHandShakeMsg`, `serverHandShakeMsg`
  and `clientHandShakeMsg` are defined in a file that is not part of this
  model. They are taken to be the relay's 0x01, 0x02 and 0x03 of handshake.go.
  `SocketProps.ClientStartNamesNoHost`, `SocketProps.RelayReplyAccepted` and the
  `*Accepted` lemmas depend on that choice.
