# Verified models of shadowsocks-go

Dafny models of the parts of shadowsocks-go whose correctness rests on state, arithmetic and interleaving, with
machine-checked proofs of what those parts promise. `dafny verify dfyconfig.toml` checks everything.

| files | part of the system |
|---|---|
| `Words`, `Crypto`, `SocksAddr` | bytes and in-place writes, the abstract cipher suite, SOCKS addresses (section 5 of RFC 1928) |
| `SlidingWindow`, `PacketHeader`, `PacketPacker`, `PacketServer`, `PacketRelay`, `PacketClient`, `PacketReply` | Shadowsocks 2022 UDP sessions: replay filter, headers, packers, both unpackers, the session table, whole runs both ways |
| `SaltPool`, `StreamWire`, `Stream`, `StreamSession`, `StreamReplay` | Shadowsocks 2022 streams: replay of requests, wire format, handshakes and chunks in place |
| `NatRelay`, `NatDispatch`, `NatShutdown`, `Uplink` | the life of UDP NAT sessions as an interleaving of atomic steps, which session gets which packet, how it ends, and the batched uplink |
| `DomainLabels`, `DomainTrie`, `SuffixTrie`, `DomainMatchers`, `DomainSets`, `DomainText`, `DomainFiles` | domain sets: trie, map and linear matchers, conversion by size, text form |
| `DirectPackets`, `Headroom` | packets without encryption, and buffer room across every pair of protocols |
| `StreamRelay` | the zero-copy relay loops and the plain reads and writes made from them |
| `Routing`, `RouteConfigs`, `RouteMeaning`, `Router` | route criteria, their compilation from a configuration, what a route takes in plain terms, and the router |

## How it is modelled

- Objects whose methods update fields are classes; buffers are arrays that are rewritten in place; each method is
  proved against a specification function, and the promises are proved about that function over whole runs.
- What is accepted and what is refused is also stated apart from those functions, for any input, in bytes, ids and times.
- AEAD, block cipher, hash and key derivation are parameters (`Crypto.Suite`): Seal adds 16 bytes and Open undoes it,
  the block cipher is a permutation, nothing else is assumed. `Crypto.TransparentSuite` shows the laws consistent.
- Clock readings, random draws, DNS answers, GeoIP answers, system call results and the readiness of channels are
  parameters, so the theorems hold for all of them. The clock never goes back where a property needs it.
- Map iteration is an arbitrary choice, so results do not depend on its order.
- Pointers between trie nodes are indices into a store; a child is always younger than its parent.
- Goroutines are program counters and each step is atomic: a lock operation, a channel operation, a swap of the state
  word, a wait group operation. A send on a closed channel, a second close, a negative wait group and the use of a
  closed socket set flags that are proved never to be set.
- A zero-copy reader or writer is known only by its contract: portions of its own choosing, an empty read at the end,
  writes that may use the whole buffer and may fail part-way.

## What the proofs found

- **Replay of stream requests.** A timestamp is accepted for 61 whole seconds (30 either way, in whole seconds), while a
  salt is remembered for 60 s after it was added. On a clock finer than a second a request can pass twice, up to a tick
  under 61 s apart: `SaltPools.ReplayedAtTheEdge` gives the two handshakes, `StreamReplay.ReplayAccepted` the
  bytes, and `SaltPools.ReplaySafety` and `StreamReplay.ReplayRefusedExactly` the exact condition, a retention of at least 61 s less one tick plus the longest handshake delay. With 60 s it holds exactly for
  a clock of whole seconds (`SaltPools.ReplayWindowDuration`).
- **Timestamps at the ends of the 64-bit range.** The difference wraps around, so the check is exact for every timestamp
  only if the clock is at least 30 s inside the range (`PacketHeader.TimestampExactness`); the run theorem of the client
  unpacker assumes that of its clock.
- **Text form.** Rules survive printing and parsing exactly when there is at least one and each is non-empty, holds no
  LF and does not end in CR (`DomainText.ParsePrintExactly`); `DomainText.RulesThatDoNotSurvive` gives a rule for each way
  to fail. A last line without LF keeps its CR, unlike other lines (`DomainText.LastLineKeepsCR`).
- **Padding.** The packers draw more padding than the 900 bytes that the headrooms allow for exactly when the address is
  to be padded and there is room for more (`PacketPacker.PaddingExceedsExactly`; `Headroom.PadBeyondReserve` packs a packet
  with 901): they bound it by the room that is there, so no slice leaves the buffer.
- **Direct server with a domain target.** Told to drop what its target did not send, it compares sources with the zero
  address: the target's replies pass exactly when the target is an IP address (`Headroom.RepliesPassExactly`); for a
  domain only `[::]` and the port do (`Headroom.DomainTargetWants`), so the reply in `Headroom.DomainReplyDropped` is lost.
- **End-of-file from a writer.** The relay clears an end-of-file error wherever it comes from, except from a single write
  of the fallback (`StreamRelay.EndOfFileInPieces`). With a writer that answers end-of-file it reports a truncated relay as
  success (`StreamRelay.EndOfFileTruncates`); success means completeness exactly as `StreamRelay.SuccessExactly` says, and
  always with a writer that never does (`StreamRelay.SuccessIsComplete`).
- **Wait group.** A session still looking up its client can add to the empty wait group while Stop waits on it
  (`NatRelay.LateAdd`). It can come next exactly when one is still routing and none is counted
  (`NatRelay.AddsWhileWaitingExactly`), and later, once the receiver is gone, exactly when one is still routing and Stop is
  not past its wait (`NatShutdown.LateAddPossibleExactly`).

## Model

| member | source | states |
|---|---|---|
| `SlidingWindow.AnswerCharacterised` | ss2022/slidingwindow.go:3-96 | over a whole run since construction or reset, the k-th counter is accepted iff it is new and at most 8128 behind every counter accepted before it |
| `SlidingWindow.GateIsFirst` | ss2022/slidingwindow.go:25-37 | if every counter first comes at most 8128 behind those before it, exactly the first of each is accepted |
| `SlidingWindow.Filter.constructor` | ss2022/slidingwindow.go:13-16 | a new filter represents the empty set of seen counters |
| `SlidingWindow.Filter.Reset` | ss2022/slidingwindow.go:19-22 | after Reset the filter represents the empty set although only the first ring word is cleared |
| `SlidingWindow.Filter.IsOk` | ss2022/slidingwindow.go:25-37 | the ring's answer is the set's: above last, or within 8128 of it and not seen |
| `SlidingWindow.Filter.ClearBlocks` | ss2022/slidingwindow.go:46-55 | exactly the n ring words after the start word, wrapping around, are cleared |
| `SlidingWindow.Filter.MustAdd` | ss2022/slidingwindow.go:41-63 | on a counter that IsOk accepts, the represented set gains exactly that counter and last becomes the maximum |
| `SlidingWindow.Filter.Add` | ss2022/slidingwindow.go:67-96 | Add is IsOk followed by MustAdd: same answer, same new set, nothing changes on refusal |
| `SocksAddr.DecodeEncode` | socks5/addr.go:111-134 | decoding an encoded address gives the address (IPv4-mapped becomes IPv4) and its length, whatever follows |
| `SocksAddr.EncodeDecode` | socks5/addr.go:255-289 | re-encoding a decoded address gives the same bytes iff it was not IPv4-mapped in long form |
| `SocksAddr.DecodeCached` | socks5/addr.go:293-330 | the cached decoder returns what the plain decoder returns, and the cache holds the last domain read |
| `SocksAddr.DecodeAddrPort` | socks5/addr.go:226-251 | succeeds iff the general decoder reads an IP address, with the same address and length |
| `SocksAddr.DecodeEncodeAddrPort` | socks5/addr.go:60-82 | round trip of an IP address and port |
| `SocksAddr.AddressOnTheWire` | socks5/addr.go:60-134 | the bytes of each kind of address; an IPv4-mapped one is written as IPv4 |
| `SocksAddr.AddressReadable` | socks5/addr.go:255-289 | bytes are an address iff the type is known and as many bytes follow as it asks for, with the error otherwise |
| `PacketHeader.TimestampOkIsWithin` | ss2022/header.go:93-101 | away from the ends of the 64-bit range the wrapped check accepts exactly the timestamps at most 30 s from now, either way |
| `PacketHeader.TimestampExactness` | ss2022/header.go:93-101 | the check with its 64-bit wrap-around is exact for every timestamp iff now is at least 30 s inside the 64-bit range |
| `PacketHeader.SeparateHeaderFields` | ss2022/header.go:286-298 | session id and packet id are read back from the separate header |
| `PacketHeader.ParseClientMessage` | ss2022/header.go:312-354 | an accepted message has a valid timestamp, and header and payload make up all of it |
| `PacketHeader.ParseOfClientMessage` | ss2022/header.go:312-371 | a written client message parses to its target and payload offset, or to BadTimestamp, for any padding |
| `PacketHeader.ParseServerMessage` | ss2022/header.go:385-431 | an accepted message has a valid timestamp, and header and payload make up all of it |
| `PacketHeader.ParseOfServerMessage` | ss2022/header.go:385-451 | a written server message parses to its source and payload offset, or to BadTimestamp, or is refused iff the client session id is not the reader's |
| `PacketHeader.ClientMessageAccepted` | ss2022/header.go:312-354 | a message is accepted iff its first byte is 0, its timestamp within 30 s, its padding fits and an address follows, byte by byte |
| `PacketHeader.ServerMessageAccepted` | ss2022/header.go:385-431 | the same for server messages, whose first byte is 1 and which name the client session |
| `PacketHeader.OtherEndRefused` | ss2022/header.go:312-431 | neither end takes what the other end writes |
| `PacketPacker.ShadowPacketClientPacker.PackInPlace` | ss2022/packet.go:118-172 | fails iff the unpadded packet exceeds the size limit or the front room; otherwise, for every padding draw, the buffer holds exactly the wire packet around the payload with the padding that the policy and the draw give, nothing else changed, and the packet id advances |
| `PacketPacker.ShadowPacketClientPacker.WriteIdentityHeaders` | ss2022/packet.go:157-163 | writes the chain of identity headers, each under its PSK for the next |
| `PacketPacker.ShadowPacketServerPacker.PackInPlace` | ss2022/packet.go:201-244 | the same for server packets under the given packet length |
| `PacketPacker.PaddingLength` | ss2022/packet.go:130-138 | no draw exceeds the maximum |
| `PacketPacker.PaddingExceedsExactly` | ss2022/packet.go:123-138 | some draw exceeds the 900 bytes that headrooms reserve iff the address is to be padded and front room and size limit both leave more |
| `PacketPacker.SealPacket` | ss2022/packet.go:165-169 | sealing in place and then encrypting the separate header gives header, identity headers and sealed message |
| `PacketPacker.ClientPacketOnTheWay` | ss2022/packet.go:118-172 | the first PSK of the chain decrypts the separate header, each identity PSK its own identity header to the hash of the next PSK, and the last opens the body, for any number of identity PSKs |
| `PacketPacker.ServerPacketOnTheWay` | ss2022/packet.go:201-244 | the same for a server packet, which has one PSK |
| `PacketPacker.PaddingDrawn` | ss2022/packet.go:130-138 | exactly the lengths from one byte to the maximum are drawn |
| `PacketServer.ReceiveOfClientPacket` | ss2022/udp.go:122-161 | a packed packet finds its user, opens under its session key, and is delivered, refused as replay or refused for its timestamp according to the session's window and the clock |
| `PacketServer.OutcomesAreAnswers` | ss2022/packet.go:414-453 | for any arrivals of one packer's packets the outcomes are the replay window's answers to their ids |
| `PacketServer.DeliveredExactlyOnce` | ss2022/packet.go:414-453 | in any order, with duplicates, between datagrams of any other sessions and any whose body does not open, each first copy at most 8128 behind: the first copy is delivered with target and payload, every other copy is refused |
| `PacketServer.DuplicateRefused` | ss2022/slidingwindow.go:25-37 | a counter presented before is refused, whether or not it was accepted then |
| `PacketServer.ForeignLeaves` | service/udp_session.go:203-240 | a datagram of another session, and one of this session whose body does not open, leaves this session as it was |
| `PacketServer.DamagedRefused` | service/udp_session.go:219-311 | a datagram whose body opens neither under the session's key nor under that of the user it names is refused and changes no session |
| `PacketServer.RefusedExactly` | ss2022/packet.go:414-453 | any datagram of a session: too short, replayed, not opening or with a bad header, in this order, or delivered |
| `PacketServer.RefusedLeaves` | service/udp_session.go:203-311 | a refused datagram adds no session and moves no window, and no datagram touches a session it does not name |
| `PacketServer.UnknownUserRefused` | ss2022/udp.go:135-161 | a packet whose identity header names no user gets no session |
| `PacketServer.ReflectedRefused` | ss2022/header.go:312-354 | a server packet sent back to a server of the same key is refused and changes nothing |
| `PacketServer.IdentityIgnored` | ss2022/packet.go:421-437 | unpacking does not depend on whether the identity header has been decrypted in place |
| `PacketServer.ShadowPacketServerUnpacker.UnpackInPlace` | ss2022/packet.go:414-453 | in-place unpacking does what the specification of one session does: new session state, target, payload in the buffer, every error case |
| `PacketServer.ShadowPacketServerUnpacker.OpenInPlace` | ss2022/packet.go:415-437 | checks the id and opens the body in place; records nothing |
| `PacketServer.ShadowPacketServerUnpacker.Record` | ss2022/packet.go:446-450 | the filter is created on the first good packet and then holds exactly the accepted ids |
| `PacketServer.UDPServer.SessionInfo` | ss2022/udp.go:122-132 | decrypts the separate header in place and returns the session id, or leaves a short packet alone |
| `PacketServer.UDPServer.NewUnpacker` | ss2022/udp.go:135-161 | finds the user behind the identity header and makes an unpacker with that user's session key, or fails as specified; of the buffer only the identity header changes, and only if there is one |
| `PacketRelay.UnpackOwned` | ss2022/packet.go:414-453 | an unpacker touches nothing it does not own, and what it comes to own is new |
| `PacketRelay.SessionTable.constructor` | service/udp_session.go:110-125 | no sessions |
| `PacketRelay.SessionTable.Dispatch` | service/udp_session.go:219-311 | the packet goes to its session's unpacker, or to a new one that is stored only once a packet unpacks; every other session stays as it was |
| `PacketRelay.SessionTable.Receive` | service/udp_session.go:203-311 | SessionInfo, NewUnpacker and UnpackInPlace on one buffer are the specification of one datagram: whole new table, every outcome, payload in the buffer |
| `PacketRelay.PackOne` | ss2022/packet.go:118-172 | one message through PackInPlace is the wire packet of its number; refused iff it exceeds the limit |
| `PacketRelay.PackAll` | ss2022/packet.go:118-172 | the k-th message becomes the k-th packet of the run theorem |
| `PacketRelay.ReceiveAll` | service/udp_session.go:203-311 | fed one after another, the relay's outcomes are those of the specification |
| `PacketRelay.Exchange` | ss2022/packet.go:118-172 | packer and relay objects joined: whatever order, repetition, foreign and damaged traffic, the first copy of each packet delivers its target and payload and every other copy is refused |
| `PacketClient.AcceptedAtMostOnce` | ss2022/packet.go:293-385 | over every run under a non-decreasing clock, across session change, demotion and eviction, two accepted packets with the same session and packet id carry timestamps at least 60 s apart, so none is accepted twice |
| `PacketClient.NoPacketAcceptedTwice` | ss2022/packet.go:293-385 | over every run of a new unpacker no two accepted packets agree in session id, packet id and timestamp |
| `PacketClient.CoverLasts` | ss2022/packet.go:293-385 | once accepted, a packet is covered by a window, by expiry or by the one-minute rule in every later state |
| `PacketClient.CoveredForever` | ss2022/packet.go:293-385 | a covered packet is accepted again, in any continuation, only with a timestamp at least 60 s later |
| `PacketClient.UnpackOfServerPacket` | ss2022/packet.go:293-385 | a server packet, exactly: a tracked session is decided by its window, another one may begin iff none began nor an old one was used within 60 s, then timestamp and client session id; what is delivered, and the whole new state |
| `PacketClient.RefusedExactly` | ss2022/packet.go:293-385 | any datagram: too short, a session too many, replayed, not opening or with a bad header, in this order, or delivered; a refusal changes nothing |
| `PacketClient.ReflectedRefused` | ss2022/header.go:385-431 | a client packet sent back to a client of the same key is refused and changes nothing |
| `PacketClient.StepKeepsState` | ss2022/packet.go:364-382 | the two tracked sessions stay distinct and the old one exists only beside a current one |
| `PacketClient.ShadowPacketClientUnpacker.UnpackInPlace` | ss2022/packet.go:293-385 | the fields and filters change, and the payload appears in the buffer, as the session machine says |
| `PacketClient.ShadowPacketClientUnpacker.Select` | ss2022/packet.go:322-343 | current, old, new or refused, with that session's key and filter |
| `PacketClient.ShadowPacketClientUnpacker.Accept` | ss2022/packet.go:364-382 | records the id, demotes the current session on a change and touches the last-seen time |
| `PacketReply.OwnStep` | ss2022/packet.go:293-385 | a packet of the tracked or newly begun session is delivered or refused by its window, which gains its id; the session stays tracked |
| `PacketReply.OtherStep` | ss2022/packet.go:293-385 | a datagram that does not open, or one of one other server session, leaves the session tracked with the same window |
| `PacketReply.OutcomesAreAnswers` | ss2022/packet.go:293-385 | over any arrivals the outcomes are the answers of the session's window to the packet ids, through demotion and promotion |
| `PacketReply.RepliesDeliveredExactlyOnce` | ss2022/packet.go:293-385 | in any order, with duplicates and other traffic, each first copy at most 8128 behind: the first copy of each server packet is delivered with source and payload, every other copy is refused |
| `PacketReply.PackOne` | ss2022/packet.go:201-244 | one message through PackInPlace is the wire packet of its number; refused iff it exceeds the limit |
| `PacketReply.PackAll` | ss2022/packet.go:201-244 | the k-th message becomes the k-th packet of the run theorem |
| `PacketReply.ReceiveAll` | ss2022/packet.go:293-385 | fed one after another, the unpacker's outcomes are those of the specification |
| `PacketReply.Reply` | ss2022/packet.go:201-244 | packer and client unpacker objects joined: the first copy of each packet delivers its source and payload and every other copy is refused |
| `SaltPools.SaltPool.Add` | ss2022/saltpool.go:19-43 | the pool after lazy cleanup and the answer are those of the specification |
| `SaltPools.AddExactly` | ss2022/saltpool.go:19-43 | accepted iff not held or, when a cleanup is due, held longer than the retention; exactly what is held afterwards |
| `SaltPools.HeldWhileFresh` | ss2022/saltpool.go:19-43 | a salt accepted at t is refused at every later call through t + retention |
| `SaltPools.ForgottenSaltAccepted` | ss2022/saltpool.go:19-43 | a salt not accepted within twice the retention is accepted |
| `SaltPools.AcceptancesApart` | ss2022/saltpool.go:19-43 | two acceptances of one salt in any run are more than the retention apart |
| `SaltPools.NoEntryOlderThanTwice` | ss2022/saltpool.go:19-43 | after any run ending in an Add no entry is older than twice the retention |
| `SaltPools.ReplaySafety` | ss2022/stream.go:100-109 | for salts of either key length, u ticks a second and a handshake delay up to d, no request passes twice in any run iff retention >= 61u - 1 + d |
| `SaltPools.ReplayWindowDuration` | ss2022/header.go:53-59 | with the configured 60 s and one clock reading per handshake, replays are shut out iff the clock counts whole seconds |
| `SaltPools.ReplayedAtTheEdge` | ss2022/stream.go:100-109 | for any salt and any second, the same request passes when its timestamp becomes valid and again just under 61 s later, if the retention is shorter |
| `StreamWire.NoncesDistinct` | ss2022/stream.go:646-653 | below 2^96 operations no two nonces are equal |
| `StreamWire.ReadAllOfChunks` | ss2022/stream.go:555-594 | reading the chunks of any sequence of writes returns the same payloads and the same operation count |
| `StreamWire.ReadChunkExactly` | ss2022/stream.go:555-594 | a chunk is delivered whole under the next two nonces; which bytes are refused, and why |
| `StreamWire.CutStreamRefused` | ss2022/stream.go:555-594 | a stream cut short is never taken for a shorter one unless it was cut between two chunks |
| `StreamWire.ParseOfVariable` | ss2022/header.go:168-218 | target and payload are read back for any padding; with neither payload nor padding it is incomplete |
| `StreamWire.StreamUserFound` | ss2022/stream.go:73-87 | the server finds the user a client's identity header names |
| `StreamWire.AcceptOfRequest` | ss2022/stream.go:38-143 | a written request is refused for its timestamp before its salt is looked at, refused for a used salt, or accepted with its target, payload, user and salt, what follows left unread |
| `StreamWire.RequestExactly` | ss2022/stream.go:38-143 | any bytes as a request: too short, another prefix, unknown user, not opening, bad header, used salt, cut short, in this order, or what is accepted |
| `StreamWire.FixedAccepted` | ss2022/header.go:123-142 | a fixed-length header is accepted iff its first byte is 0 and its timestamp within 30 s, byte by byte |
| `StreamWire.VariableAccepted` | ss2022/header.go:168-218 | a variable-length header: which bytes are accepted, as what, and each error |
| `StreamWire.StreamUserUnknown` | ss2022/stream.go:73-87 | an identity header that names no user is refused |
| `StreamWire.BlocksOnTheWay` | ss2022/stream.go:306-313 | each identity PSK decrypts its own block to the hash of the next PSK of the chain |
| `StreamWire.RequestOnTheWire` | ss2022/stream.go:256-358 | a request byte by byte, with the first two nonces |
| `StreamWire.ResponseOnTheWire` | ss2022/stream.go:166-218 | a response byte by byte, with the first two nonces |
| `StreamWire.ClientToServerTransparent` | ss2022/stream.go:38-143 | for any initial payload and later writes of 1 to 65535 bytes the server recovers the target and the same bytes in order, and both ends have done the same number of AEAD operations |
| `StreamWire.ReadOfResponse` | ss2022/stream.go:386-450 | a written response is refused for its timestamp, refused for answering another request, or read |
| `StreamWire.ResponseAccepted` | ss2022/header.go:232-256 | a response header is accepted iff its first byte is 1, its timestamp within 30 s and its salt the request's, byte by byte |
| `StreamWire.ResponseExactly` | ss2022/stream.go:386-450 | any bytes as a response, in the same way |
| `StreamWire.ServerToClientTransparent` | ss2022/stream.go:386-450 | the same for the way back |
| `StreamWire.Split` | ss2022/stream.go:339-347 | the excess payload is cut into writable pieces whose concatenation it is |
| `StreamWire.SplitFull` | ss2022/stream.go:339-347 | all pieces but the last are full |
| `StreamWire.PaddingPayloadLen` | ss2022/stream.go:266-277 | payload and padding fit the request, and there is padding when there is no payload |
| `StreamWire.RequestPaddingDrawn` | ss2022/stream.go:266-277 | exactly which lengths of padding and payload are drawn |
| `StreamWire.FirstPayloadFits` | ss2022/stream.go:258-277 | as much of the initial payload as fits travels in the request header, the rest follows |
| `Stream.Increment` | ss2022/stream.go:646-653 | the in-place loop adds one to the little-endian number, wrapping around |
| `Stream.IncLE` | ss2022/stream.go:646-653 | incrementing the nonce of n operations gives the nonce of n + 1 |
| `Stream.ShadowStreamCipher.EncryptInPlace` | ss2022/stream.go:614-618 | seals under the nonce of the operation count and advances it by one |
| `Stream.ShadowStreamCipher.Encrypt` | ss2022/stream.go:621-625 | the same without writing in place |
| `Stream.ShadowStreamCipher.DecryptInPlace` | ss2022/stream.go:628-634 | opens under the nonce of the operation count, which advances only on success |
| `Stream.ShadowStreamCipher.Decrypt` | ss2022/stream.go:637-643 | the same without writing in place |
| `Stream.ShadowStreamWriter.WriteZeroCopy` | ss2022/stream.go:502-526 | sends exactly one chunk, or a first part of it and fails; nothing outside 18 bytes before and 16 bytes after the payload changes, and the nonce advances either way |
| `Stream.ShadowStreamReader.ReadZeroCopy` | ss2022/stream.go:555-594 | reads exactly one chunk into the buffer, with every error case |
| `Stream.WriteExcess` | ss2022/stream.go:339-347 | sends the excess payload as chunks through the request's buffer until a write fails, and keeps everything before it |
| `Stream.WriteIdentityBlocks` | ss2022/stream.go:305-311 | writes the chain of identity headers after the salt |
| `Stream.WriteVariable` | ss2022/header.go:207-218 | writes address, padding length and payload around whatever padding the buffer holds |
| `Stream.FillRequest` | ss2022/stream.go:279-317 | lays out prefix, salt, identity headers and both headers at their offsets |
| `Stream.SealRequest` | ss2022/stream.go:322-326 | two seals in place turn the buffer into the request |
| `Stream.NewClient` | ss2022/stream.go:256-358 | sends the request and the excess payload; fails iff a write of the transport fails, a first part of the same bytes having been sent; the saved request salt in the reused buffer is intact |
| `Stream.NewServer` | ss2022/stream.go:38-143 | accepts as specified; the salt is in the pool once its header was good, whatever follows; hands back what it read exactly when the request could not be authenticated; leaves the reader at operation 2 |
| `Stream.ReadFixedPart` | ss2022/stream.go:44-103 | salt, user and fixed-length header as specified, with the bytes read handed back on the errors before authentication |
| `Stream.FirstWrite` | ss2022/stream.go:166-218 | the server's first write sends the response, or a first part of it and fails, and leaves the writer at operation 2 |
| `Stream.FirstRead` | ss2022/stream.go:386-450 | the client's first read accepts the response as specified, payload in the caller's buffer; the reader is kept from when the salt is known, also after an error |
| `StreamSession.WriteAll` | ss2022/stream.go:502-526 | any sequence of writes of 1 to 65535 bytes becomes their chunks, two operations each, or a first part of them when a write fails |
| `StreamSession.ReadToEnd` | ss2022/stream.go:555-594 | repeated reads return what the chunks hold, in order, or the first error |
| `StreamSession.ClientSends` | ss2022/stream.go:256-358 | client objects together send exactly the client's stream, or a first part of it iff a write fails |
| `StreamSession.ServerReceives` | ss2022/stream.go:38-143 | server objects together accept and read as specified, keeping the user's key and the request's salt |
| `StreamSession.Transfer` | ss2022/stream.go:38-143 | client and server objects joined, with the salt pool: the server gets the target and the same bytes under the client's key and salt, both nonces have counted the same operations, and the client's buffer still holds the salt |
| `StreamSession.ClientReads` | ss2022/stream.go:386-450 | client objects together read the way back as specified |
| `StreamSession.Answer` | ss2022/stream.go:166-218 | the way back, first write and first read included: refused for its timestamp, refused iff the salt that the server answers is not the client's own, otherwise the same bytes |
| `StreamSession.Converse` | ss2022/stream.go:166-218 | one exchange both ways: the server answers with the key and salt it accepted, the client checks against the salt in its buffer, and each gets what the other sent |
| `StreamReplay.ReplayRefusedExactly` | ss2022/stream.go:38-143 | over every run of a server on the bytes that come in, no request is accepted twice iff the retention covers the validity of its timestamp and the handshake delay |
| `StreamReplay.ReplayAccepted` | ss2022/stream.go:38-143 | with a shorter retention the bytes of any client's request pass twice |
| `StreamReplay.AcceptancesFarApart` | ss2022/stream.go:104-109 | two accepted connections with one salt are more than the retention apart |
| `StreamReplay.ServeAll` | ss2022/stream.go:38-143 | the server objects and their shared pool, connection after connection, answer as the runs do |
| `StreamReplay.RefuseStale` | ss2022/header.go:131-134 | a request with a timestamp out of range is refused by the server object, and its salt is not entered |
| `NatRelay.StepKeepsInv` | service/udp_nat.go:147-416 | every atomic step of receiver, session, uplink or Stop keeps the invariant |
| `NatRelay.RunKeepsInv` | service/udp_nat.go:147-416 | so does every interleaving |
| `NatRelay.NoPanicInAnyRun` | service/udp_nat.go:192-211 | in every interleaving no send on a closed channel, no channel closed twice, no negative wait group, no socket used after closing; an entry is in the table exactly while its channel is open |
| `NatRelay.AddsWhileWaitingExactly` | service/udp_nat.go:300-304 | an addition to the empty wait group while Stop waits can come next iff a session is still looking up its client and none is counted |
| `NatRelay.NoAddWhileWaiting` | service/udp_nat.go:606-644 | if no session is looking up its client once the receiver is gone, it never happens in any continuation |
| `NatRelay.LateAdd` | service/udp_nat.go:300-304 | a run in which it does |
| `NatShutdown.LateAddPossibleExactly` | service/udp_nat.go:300-304 | once the receiver is gone, some continuation adds while Stop waits iff a session is looking up its client and Stop is not past its wait |
| `NatShutdown.GroupEmpties` | service/udp_nat.go:606-644 | from every state with the receiver gone and Stop not past its wait the wait group can still become empty, without any session that is looking up its client moving on |
| `NatShutdown.SomeStepHelps` | service/udp_nat.go:606-644 | until then some step brings it nearer: a waiting goroutine or uplink, the holder of the mutex, or Stop |
| `NatShutdown.StopCanReturn` | service/udp_nat.go:606-644 | whatever has happened Stop can still be called and return: no interleaving leads into a deadlock |
| `NatRelay.ShutdownIsAgreed` | service/udp_nat.go:606-644 | once Stop has been through the table every session in it was told in exactly one way: one that relays had its natConn seen and its deadline set, one still initialising finds the mark and never relays; the server socket is open while any session relays |
| `NatRelay.VerdictStays` | service/udp_nat.go:619-634 | no later step changes what Stop found in a session |
| `NatRelay.RefusedNeverRelays` | service/udp_nat.go:349-360 | a session that Stop found without a natConn neither relays nor starts an uplink, however the run goes on |
| `NatRelay.SessionStepKeepsTable` | service/udp_nat.go:268-286 | a session deletes only its own entry |
| `NatRelay.BuffersConserved` | service/udp_nat.go:392-405 | in every interleaving pool, receiver, channels and uplinks together hold every buffer once; when all are done the pool holds all of them |
| `NatDispatch.RightSessionInOrder` | service/udp_nat.go:186-400 | in every interleaving, every packet in a session's channel or uplink came from that session's client, in order of arrival |
| `NatDispatch.StepDispatches` | service/udp_nat.go:186-400 | every step keeps it |
| `NatDispatch.SentOrDropped` | service/udp_nat.go:392-405 | the packet in hand goes to the end of its client's channel, and is dropped iff 1024 packets wait there |
| `NatRelay.EachOnce` | service/udp_nat_linux.go:52-76 | the multiset of all buffers holds each created buffer exactly once |
| `NatRelay.SocketsClosed` | service/udp_nat.go:322-377 | in every interleaving a natConn is open from its creation until it is refused or its uplink has closed it, and none is open once all is done |
| `NatRelay.SessionStepBuffers` | service/udp_nat.go:428-470 | a session or uplink step hands over exactly the buffers it returns |
| `NatRelay.ReceiverKeepsConserved` | service/udp_nat_linux.go:202-213 | a receiver step neither loses nor duplicates a buffer, on full channels, errors and exit alike |
| `Uplink.SimpleUplink` | service/udp_nat.go:418-470 | packs and submits the channel's packets in order and returns each to the pool |
| `Uplink.PackedInOrder` | service/udp_nat.go:418-470 | the k-th packet is packed by the k-th call from the state the call before left; what packs is sent, in order, and nothing else |
| `Uplink.Gather` | service/udp_nat_linux.go:374-425 | one round takes a first part of the channel, packs it in order, fills the vectors with what was packed; it ends when its first packet fails, and otherwise goes on exactly until the batch is full, nothing is ready or the channel is closed |
| `Uplink.WriteMsgvec` | conn/conn_linux.go:446-472 | whatever the calls of sendmmsg answer, every message is submitted once, in order, and exactly the messages at the head of failed calls are dropped |
| `Uplink.DropsAreFailures` | conn/conn_linux.go:446-472 | one message is dropped for every failed call, and no more calls are made than there are messages |
| `Uplink.DroppedExactly` | conn/conn_linux.go:446-472 | exactly the messages that stood first when a call failed are dropped, and the calls end when all are done |
| `Uplink.BatchedUplink` | service/udp_nat_linux.go:351-460 | for any channel contents, receive outcomes and answers of the system calls: the same PackInPlace calls and messages in the same order as the simple loop, batches of 1 to batchSize, every packet returned once, and what each batch drops given by the calls from where the one before stopped |
| `DomainLabels.MatchSuffixSplit` | domainset/matcher_suffix.go:62-64 | matches iff equal or ending in a dot and the suffix |
| `DomainLabels.MatchSuffixIsPrefix` | domainset/matcher_suffix.go:62-64 | matches iff the suffix's labels, from the right, are a prefix of the domain's, empty labels included |
| `DomainLabels.JoinLabels` | domainset/matcher_suffix_trie.go:102-110 | joining the labels of a name gives the name |
| `DomainLabels.LabelsJoin` | domainset/matcher_suffix_trie.go:102-110 | labels of joined labels are the labels |
| `DomainTrie.AddChildHas` | domainset/matcher_suffix_trie.go:23-35 | a new child includes its own path and changes no other |
| `DomainTrie.MarkHas` | domainset/matcher_suffix_trie.go:57-58 | including a node adds its path, drops exactly those below it and keeps the rest |
| `DomainTrie.CoreMatchesTheSame` | domainset/matcher_suffix_trie.go:95-115 | dropping covered rules changes no answer |
| `SuffixTrie.DomainSuffixTrie.constructor` | domainset/matcher_suffix_trie.go:133-135 | an empty trie holds no rules |
| `SuffixTrie.DomainSuffixTrie.Create` | domainset/matcher_suffix_trie.go:23-35 | one new node under c, a nil child map being allocated first |
| `SuffixTrie.DomainSuffixTrie.Insert` | domainset/matcher_suffix_trie.go:13-61 | after any inserts in any order the included paths are exactly the rules that no shorter rule covers |
| `SuffixTrie.DomainSuffixTrie.Match` | domainset/matcher_suffix_trie.go:64-92 | matches iff some inserted suffix equals the name or follows a dot at its end |
| `SuffixTrie.DomainSuffixTrie.KeysFrom` | domainset/matcher_suffix_trie.go:102-110 | appends every included path below a node once, in whatever order the child maps yield |
| `SuffixTrie.DomainSuffixTrie.Keys` | domainset/matcher_suffix_trie.go:95-100 | duplicate-free, and exactly the inserted suffixes that no other inserted suffix covers |
| `SuffixTrie.DomainSuffixTrie.MatcherCount` | domainset/matcher_suffix_trie.go:118-123 | zero iff nothing was inserted |
| `SuffixTrie.DomainSuffixTrieFromSlice` | domainset/matcher_suffix_trie.go:137-143 | holds exactly the rules of the slice |
| `SuffixTrie.Rebuild` | domainset/matcher_suffix_trie.go:95-143 | a trie rebuilt from another's keys matches the same names |
| `Words.SliceContains` | slices/slices.go:4-11 | true iff the value is in the slice |
| `DomainMatchers.SuffixLinearMatch` | domainset/matcher_suffix.go:20-27 | answers what the trie answers for the same rules |
| `DomainMatchers.SuffixMapMatch` | domainset/matcher_suffix.go:85-96 | looking up what follows each dot answers the same as well |
| `DomainMatchers.KeywordLinearMatch` | domainset/matcher_keyword.go:15-22 | matches iff some keyword occurs in the name |
| `DomainMatchers.Match` | domainset/matcher.go:4-7 | every matcher answers what its rules mean, whatever form they are stored in |
| `DomainMatchers.MeansExactly` | domainset/matcher.go:4-7 | what each kind of rule means, by name alone: equal, equal or below a suffix, around a keyword, matched |
| `DomainMatchers.Insert` | domainset/matcher.go:16-16 | every builder gains exactly the rule |
| `DomainMatchers.Rules` | domainset/matcher.go:19-19 | a builder lists its rules; a trie lists those not covered by others |
| `DomainMatchers.MapKeys` | maps/maps.go:5-11 | every key once |
| `DomainMatchers.MatcherCount` | domainset/matcher.go:21-23 | the number of matchers AppendTo will append |
| `DomainMatchers.DomainLinearAppendTo` | domainset/matcher_domain.go:46-59 | appends one matcher with the same rules, linear iff there are at most 8 different ones; the mutual recursion ends even with duplicates |
| `DomainMatchers.DomainMapAppendTo` | domainset/matcher_domain.go:106-119 | the same from the map side |
| `DomainMatchers.SuffixLinearAppendTo` | domainset/matcher_suffix.go:48-60 | appends one matcher with the same rules, a trie above 4 of them |
| `DomainMatchers.SuffixMapAppendTo` | domainset/matcher_suffix.go:117-130 | the same from the map side, linear up to 4 rules |
| `DomainSets.AppendTo` | domainset/matcher_regexp.go:42-58 | what is appended means what the rules mean, in as many matchers as announced; fails iff a regular expression does not compile |
| `DomainSets.DomainSet` | domainset/domainset.go:73-87 | fails iff a regular expression does not compile; otherwise the matchers together mean what the four builders mean, and number what they announced |
| `DomainSets.SetMatch` | domainset/domainset.go:300-307 | matches iff some matcher does |
| `DomainText.NextNonEmptyLine` | bytestrings/bytestrings.go:9-28 | the loop returns the next non-empty line, one CR stripped before an LF, and the rest |
| `DomainText.ParseCapacityHint` | domainset/domainset.go:211-241 | found iff the prefix is there; then four non-negative counts and the suffix, or an error |
| `DomainText.HintOfHintLine` | domainset/domainset.go:99-99 | a printed hint parses to its counts |
| `DomainText.NumberOfDecimal` | domainset/domainset.go:224-224 | a printed number reads back |
| `DomainText.AtoiSigned` | domainset/domainset.go:224-224 | signed numbers within 64 bits |
| `DomainText.AtoiRefuses` | domainset/domainset.go:224-224 | what is no number: nothing but a sign, or anything but digits after it |
| `DomainText.WriteText` | domainset/domainset.go:93-128 | the loops write the hint and one line per rule, kind by kind |
| `DomainText.CollectBody` | domainset/domainset.go:176-206 | rules on one line read back with a final CR stripped, in order; an empty one is an invalid line |
| `DomainText.CollectUntilFirst` | domainset/domainset.go:176-206 | what is collected is all rules, or exactly those of the lines before the first invalid one |
| `DomainText.ParseReads` | domainset/domainset.go:139-209 | any text: an optional capacity hint, then every line a comment or a prefix with a rule, the rules those listed under each prefix, or the error |
| `DomainText.CommentIgnored` | domainset/domainset.go:176-206 | a line that starts with # and is no leading hint adds no rule and no error, wherever it stands |
| `DomainText.JunkRefused` | domainset/domainset.go:176-206 | a line that is neither a comment nor a prefix with a rule makes the text invalid |
| `DomainText.PartReads` | domainset/domainset.go:170-206 | on an invalid line the rules collected are those of the lines before the first that is neither a comment nor a rule |
| `DomainText.HintExactly` | domainset/domainset.go:211-241 | a capacity hint is four counts with a space after each between prefix and suffix, anything else is a bad one |
| `DomainText.ParsePrintExactly` | domainset/domainset.go:93-209 | parsing the printed text gives the same rules iff there is a rule and every rule is non-empty, has no LF and does not end in CR |
| `DomainText.RulesThatDoNotSurvive` | domainset/domainset.go:93-209 | a rule ending in CR loses it, an empty rule makes the text unreadable, a rule with an LF comes back as two |
| `DomainText.LastLineKeepsCR` | bytestrings/bytestrings.go:9-28 | a CR before an LF is dropped, one at the end of the text is kept |
| `DomainFiles.BuilderFromTextFunc` | domainset/domainset.go:146-209 | for builders of any form, holds exactly the rules the text says; fails with its first error, and at an invalid line returns the builder with the rules before it |
| `DomainFiles.InsertEntry` | domainset/domainset.go:185-199 | a line's rule goes to the builder of its kind and to no other |
| `DomainFiles.WriteAndRead` | domainset/domainset.go:93-209 | a builder with clean rules, written out and read into builders of any form, means the same domains |
| `DomainFiles.ListedMeansTheSame` | domainset/domainset.go:93-128 | a builder and one holding its listed rules mean the same domains |
| `DirectPackets.ReadClientOfPacked` | direct/packet.go:165-237 | the server reads target and payload from what the client packed, for both framings |
| `DirectPackets.ReadServerOfPacked` | direct/packet.go:193-220 | the client reads source and payload from what the server packed |
| `DirectPackets.Socks5Exactly` | direct/packet.go:319-388 | a SOCKS5 packet is refused if too short or a fragment, otherwise read from its fourth byte |
| `DirectPackets.RoomInDatagram` | zerocopy/packet.go:29-37 | the headers that are taken off the MTU for each kind of address |
| `DirectPackets.PackHeader` | direct/packet.go:290-301 | the header goes right before the payload, which stays; too big iff over the limit |
| `DirectPackets.PacketServerUnpacker.UnpackInPlace` | direct/packet.go:370-387 | reads target and payload in place as specified, with every error case, and updates the domain cache |
| `DirectPackets.ClientUnpackInPlace` | direct/packet.go:319-341 | drops packets that are not from the server, and otherwise reads source and payload in place |
| `DirectPackets.DirectPacketClient.PackInPlace` | direct/packet.go:48-65 | sends the payload as it is to the address or to the domain's last resolution; too big iff over the destination's limit |
| `Headroom.UplinkRoom` | service/udp_nat.go:84-93 | for every server and client protocol, address and padding, the buffer sized at relay creation leaves the client packer its front and rear room after unpacking |
| `Headroom.DownlinkRoom` | service/udp_nat.go:485-505 | the same for the way back |
| `Headroom.RoomIsLeast` | service/udp_nat.go:84-93 | not a byte more: what is unpacked and what is added make up the larger of both needs |
| `Headroom.ShadowClientSpans` | ss2022/packet.go:45-67 | an unpacked client packet leaves at least its header's room in front and its tag's room behind |
| `Headroom.ShadowServerSpans` | ss2022/packet.go:60-67 | the same for server packets |
| `Headroom.UnpackUplink` | direct/packet.go:231-237 | each server unpacker delivers what it reads, behind at least the header of the address it read |
| `Headroom.PackUplink` | direct/packet.go:165-175 | each client packer fits its packet around the payload and sends it to its endpoint; it fails iff a direct client's domain does not resolve or the packet exceeds the size limit |
| `Headroom.UnpackDownlink` | direct/packet.go:193-203 | each client unpacker delivers what it reads, behind at least the header of the source it read |
| `Headroom.PackDownlink` | direct/packet.go:94-104 | each server packer sends iff the packet fits and a direct server wants the source |
| `Headroom.DomainTargetWants` | direct/packet.go:94-104 | restricted to a domain target, a direct server takes nothing but the unspecified IPv6 address and the port |
| `Headroom.RepliesPassExactly` | direct/packet.go:94-104 | the target's own replies pass, whatever it resolves to, iff the target is an IP address |
| `Headroom.DomainReplyDropped` | direct/packet.go:94-104 | a concrete reply of a domain target that is dropped |
| `Headroom.PadBeyondReserve` | ss2022/packet.go:123-138 | a packer in a relay's own buffer that pads with 901 bytes |
| `Headroom.RelayUplink` | service/service.go:95-103 | for every pair of protocols and every packet nothing leaves the buffer; a packet is sent iff it was read and the packer does not refuse it, to the packer's endpoint, and carries the target and payload that was read |
| `Headroom.RelayDownlink` | service/udp_nat.go:485-540 | the same for the way back; sent iff accepted and within the client's packet size |
| `StreamRelay.AnyPortion` | zerocopy/stream.go:14-35 | a reader may come with any portion that fits, and with none only at the end |
| `StreamRelay.Relay` | zerocopy/stream.go:80-144 | for every reader and writer: what was written is the stream's start of the returned length, no write over the limit; count, error and number of calls are those of the specification |
| `StreamRelay.RelayFallback` | zerocopy/stream.go:147-192 | the same when one read can exceed one write |
| `StreamRelay.RelaySizes` | zerocopy/stream.go:80-110 | which sizes a relay reads and writes in, and when it copies in pieces |
| `StreamRelay.RelayedEnds` | zerocopy/stream.go:124-192 | either no write failed, everything went through and the stream's end is reported; or the last one did, in the portion that starts where it is said to, and its error is reported, an end-of-file only from a portion that the fallback writes in one go |
| `StreamRelay.SuccessExactly` | zerocopy/stream.go:124-192 | success iff no write failed and the stream ended cleanly, or the write that failed answered end-of-file and its portion was not written in one go by the fallback |
| `StreamRelay.SuccessIsComplete` | zerocopy/stream.go:124-142 | with a writer that never answers end-of-file, success iff the stream ended cleanly and everything was written |
| `StreamRelay.EndOfFileTruncates` | zerocopy/stream.go:131-142 | a writer that takes nothing and answers end-of-file: success is reported with nothing written, whatever the stream holds |
| `StreamRelay.EndOfFileInPieces` | zerocopy/stream.go:161-183 | the same writer on the fallback: the end-of-file is cleared iff the portion is larger than one write, and returned otherwise |
| `StreamRelay.WritePieces` | zerocopy/stream.go:174-183 | a large portion goes out in pieces, in order, untouched by the in-place writes, until a piece fails |
| `StreamRelay.CopyReadWriter.constructor` | zerocopy/stream.go:489-510 | buffers large enough for the wrapped reader and writer |
| `StreamRelay.CopyReadWriter.Read` | zerocopy/stream.go:513-527 | yields the next bytes of the stream for any size asked; an error iff the stream has ended |
| `StreamRelay.CopyReadWriter.Write` | zerocopy/stream.go:530-544 | writes all of the input, or a first part of it and the error of the write that failed |
| `StreamRelay.ReadMany` | zerocopy/stream.go:513-527 | any number of reads spells out the stream from its start; every read of a positive size makes progress until the stream has ended, so more reads than bytes reach its end |
| `StreamRelay.CopyWriteOnce` | zerocopy/stream.go:566-592 | writes all of the input, or a first part of it and the error of the write that failed |
| `Routing.Meet` | router/route.go:399-619 | every criterion reports its outcome; none is both met and in error |
| `Routing.MeetAny` | router/route.go:432-443 | the first error or met criterion decides a group |
| `Routing.MatchAll` | router/route.go:372-380 | the first criterion not met decides a route |
| `Routing.LookUpIsFirst` | router/route.go:655-664 | all resolvers pass the question on, or the first that does not answers it |
| `Routing.LookupAll` | router/route.go:655-664 | the first resolver that does not pass the question on answers |
| `Routing.MatchDomainToDomainSets` | router/route.go:666-673 | matches iff some set does |
| `Routing.MatchAddrToGeoIPCountries` | router/route.go:621-633 | a country of the list, or the lookup's error |
| `Routing.MatchDomainToGeoIPCountries` | router/route.go:675-681 | resolves, then asks about the first IPv6 address or else the first IPv4 address |
| `Routing.MatchDomainToIPSet` | router/route.go:683-689 | the same for a prefix set |
| `RouteConfigs.GroupCriterion` | router/route.go:446-455 | a group of one is its member, and no outcome changes |
| `RouteConfigs.AllAppendGroup` | router/route.go:461-470 | appending a group adds its question, an empty one none |
| `RouteConfigs.BuildIPSet` | router/route.go:189-206 | the union of prefixes and named sets, or an error iff one is invalid or unknown |
| `RouteConfigs.BuildDomainSets` | router/route.go:229-253 | the listed domains and the named sets, or an error iff one is unknown |
| `RouteConfigs.SourceGroup` | router/route.go:185-220 | means the source clause |
| `RouteConfigs.ExpectedGroup` | router/route.go:255-290 | means the clause about the resolved address |
| `RouteConfigs.DomainCriterion` | router/route.go:229-294 | means the domain clause with its expectation |
| `RouteConfigs.AddressCriteria` | router/route.go:296-338 | means the destination address clauses, resolving domains unless disabled |
| `RouteConfigs.DestGroup` | router/route.go:226-341 | means the destination clause |
| `RouteConfigs.Compile` | router/route.go:113-348 | accepts iff the configuration is acceptable, and then every request has the outcome of the direct reading: AND of clauses, OR inside source and destination, inversions, first error stops |
| `RouteMeaning.RouteTakesExactly` | router/route.go:113-348 | when every lookup answers, a route is met by exactly the requests it takes, in plain terms of lists, inversions and the address that the asked resolvers find |
| `RouteMeaning.NamedResolverOnly` | router/route.go:143-149 | a named resolver is the only one asked, whatever lookups and countries answer |
| `RouteMeaning.ResolvedExactly` | router/route.go:635-689 | the first resolver that answers decides; IPv6 before IPv4; no address means no; no answer or a broken resolver is an error |
| `RouteMeaning.FirstClauseDecides` | router/route.go:113-348 | clauses are read in order and the first not met decides, whether it says no or fails |
| `RouteMeaning.SourceCountryUnknown` | router/route.go:185-220 | an unknown country is an error unless the prefixes already take the source |
| `RouteMeaning.AcceptableExactly` | router/route.go:113-183 | what a configuration must be to be accepted, in plain terms |
| `RouteMeaning.EarlyErrorExactly` | router/route.go:114-183 | which error is reported, in order, for names, missing lookups, resolver, network and client |
| `Routers.NewRouter` | router/router.go:28-110 | accepts iff the defaults and every route are acceptable; the routes in order and the default route last |
| `Routers.DefaultClientExactly` | router/router.go:28-70 | the default client by name, or the only one there is, or none |
| `Routers.Match` | router/router.go:168-179 | always ends at the first route that is met or at the first error before it; the panic is never reached |
| `Routers.ChoiceIsFirst` | router/router.go:168-179 | the choice is the first met route, all earlier ones being not met, or the first error |
| `Routers.RejectedOnlyWhenAsked` | router/route.go:383-396 | a matched request has no client iff its route rejects or the default client is open |

## Left out

- Sockets and their options, mmap, logging, JSON configuration, the command-line programs: input and output.
- AES, GCM, BLAKE3, gob, regexp, prefix set and GeoIP internals: kept abstract. That a forged packet does not open is not
  assumed, and no theorem needs it. A failed in-place open is taken to leave the buffer as it was.
- `dns/dns.go`, HTTP proxying, TCP relay service, API: timed network input and output or thin over libraries.
- SOCKS5 method negotiation and the reader decoders of `socks5/addr.go` (138-220).
- `service/udp_session*.go` beyond its receiver's table of sessions, and the transparent relay: the first repeats the NAT
  life cycle with another key, the second has no state word.
- That Stop returns in every fair run: only that it always still can (`NatShutdown.StopCanReturn`). Reads of a queued packet
  after it was put back: no claim is made.
- Interleaved use of the server's current user between NewUnpacker and NewPacker of different sessions: sequential only.
- Buffers that a sync.Pool drops under memory pressure: the pool of the model keeps what it was given.
- IPv6 zones, and unresolved zero addresses other than the direct server's comparison.
- NatRelay.NoPanicInAnyRun: steps are atomic at lock, channel, swap and wait group operations; data races on memory that
  these operations do not order are not modelled.
- PacketClient.AcceptedAtMostOnce: asks for a clock at least 30 s inside the 64-bit range of seconds.
- PacketServer.DeliveredExactlyOnce: sessions do not end while the arrivals come in, and a datagram of this session that the
  packer did not send does not open.
- PacketReply.RepliesDeliveredExactlyOnce: between the packets comes at most one other server session; with a third the
  client drops the oldest, which `PacketClient.AcceptedAtMostOnce` covers.
- PacketRelay.SessionTable.Receive: the control message of a datagram parses; sessions are not removed.
- Stream.NewServer: a read that fails outright is not told from one that yields too little; the salt and clock are given.
- Uplink.WriteMsgvec: a call of sendmmsg that does not fail submits at least one message; errors of waiting for the
  socket are not modelled.
- DomainFiles.BuilderFromTextFunc: the capacity hint is checked but only its acceptance matters; allocation by it is not
  modelled.
- DomainMatchers.Insert: builders are values, so that a matcher appended by AppendTo shares later inserts with its
  builder is not captured, except for the trie, which is an object.
- DomainMatchers.Match: strings are sequences of characters where the code has bytes.
- DomainFiles.WriteAndRead: asks that no builder lists more rules than a 64-bit length can count.
- StreamRelay.Relay: the direct io.Copy path and readers that return data together with an end are outside it.
- StreamRelay.CopyReadWriter.constructor: a ReadWriter is a reader and a writer whose headroom is the larger of the two;
  ReadFrom is not modelled.
- RouteConfigs.Compile: the listed domains are a set; that the linear matcher built from them answers the same is
  `DomainMatchers.DomainLinearAppendTo`. Resolver, country and set answers are fixed during one match.
- Routers.NewRouter: opening the GeoIP database and loading domain and prefix sets are parameters of its context.
