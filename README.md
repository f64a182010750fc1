# sockem protocol core in Dafny

This project models the protocol engine of sockem, a SOCKS5 proxy (RFC 1928) written for
Node.js, and proves properties of that model. Sockets, timers and the cipher are left out.
What remains is byte-exact and sequential:

- **Framing codec** (`FrameIO`, io.dfy). It models `getWritableData` and `readData`.
  - Each frame is an 8-byte signed little-endian length followed by the encrypted payload.
  - The reader reassembles frames chunk by chunk, keeping the per-socket fields (waiting flag, bytes to read, bytes read, stashed body).
  - `FrameReader` is a class over those fields.
  - The main theorem: a stream of frames cut into chunks is delivered payload by payload, in order, exactly once.
- **SOCKS5 UDP relay** (`Socks5Udp`, socks5udp.dfy). It models:
  - the datagram header of section 7 of RFC 1928 (`_addClientHeader`, `_stripClientHeader`) and their round trip;
  - the `_shouldWeRelay` check;
  - the relay's message dispatcher, which remembers the UDP client once, and the close of the TCP control connection, which closes the relay's server (`UdpRelay`).
- **SOCKS5 control connection** (`Socks5`, socks5.dfy). It models:
  - method negotiation;
  - the CONNECT request parse and its reply;
  - the `dataHandler` message counter;
  - `_handleClient`, which turns the connection into a relay and closes the listener at most once (`Session`).
- **TCP relay** (`Socks5Tcp`, socks5tcp.dfy). It models `handleSocksClient` of lib/socks5TCP.js as an event-to-effect machine (`TcpRelay`):
  - writes through the extension stages;
  - teardown on end, error and timeout;
  - replay order at hook-up;
  - at most one close of the listener.
- **Firewall** (`Firewall`, firewall.dfy). It models rule parsing, `isAllowed`, and the prefix comparison with JavaScript's 32-bit shift and BigInt shift semantics.
- **Address utilities** (`Utils`, `Ipv6Expand`, `DottedQuad`). They model `analyzeIPAddr`, `getIPAsBytes`, the 4-byte `getIPFromBytes`, and `expandIPv6Address`, including the regular expressions that rewrite an embedded dotted quad.
- **Extension pipeline** (`Extensions`, extensions.dfy). It models:
  - `preConnect` and `preOut` as left folds;
  - the `preIn` continuation chain over its shared, shifted `fns` list (`Chain`);
  - `initSync` as appends to the three stage lists (`ExtensionsManager`).
- **DNS rewrite extension** (`Dns`, dns.dfy). It models the table lookup and `_getHostPort`.
- **AES extension** (`Aes`, aes.dfy). It models endpoint enablement and the delegation to the framing codec.

Three support modules give the JavaScript built-ins the exact meaning the code relies on:

- `JsBase`: `Result` with the JavaScript error kinds.
- `JsText`: `indexOf`, `lastIndexOf`, `substring`, `split`, `join`, `trim`, number formatting, `parseInt` and `Number`.
- `JsBuffer`: `slice` clamping, big- and little-endian reads and writes, and the range errors they throw.

`Utf8` models `Buffer.from(string)` and WHATWG decoding by `buf.toString()`.

External behaviour is passed in as parameters:

- The cipher is a pair of function values `encrypt` and `decrypt`. Round trips are stated under `forall m :: decrypt(encrypt(m)) == m`, and what the real, text-decoding cipher delivers is stated separately (see Text cipher below).
- Opening the listener and the remote connection is a function `connect` from host and port to an optional proxy object.
- `utils.isThisAnIP` and `utils.compareIPs` are called but not defined in lib/utils.js. They are function parameters.
- I/O is a trace of `Effect` values: writes, ends, destroys, timeouts and listener closes.

### Behaviour of the code worth knowing

The model follows the code in each of these cases.

- **Split length prefix.** The code reads the 8-byte length prefix from the current chunk only (lib/io.js:28-29). A chunk shorter than 8 bytes at a frame boundary therefore throws (`FrameIO.ShortHeaderThrows`). The stream theorem requires every frame start to have a whole header in its chunk.
- **Commands.** lib/socks5.js:49-50 accepts only CONNECT, although section 4 of RFC 1928 also defines BIND and UDP ASSOCIATE.
- **IPv6 requests.** An ATYP 4 request throws. `getIPFromBytes` has no working 16-byte branch.
- **Domain requests.** The name is read from `slice(4, 4 + len)`. This includes the length byte and drops the last name byte.
- **UDP port check.** For a name, `_shouldWeRelay` reads the port one byte early.
- **Default mask.** The code's default mask is 128 for every entry not starting with "true", because of `ip.indexOf(":" != -1)` (lib/firewall.js:19). For IPv4 a shift count of 128 - 32 is 0 mod 32, so such a rule is an exact-address match, as is mask 0.
- **128-bit value.** The 128-bit firewall value is `hi << 64n || lo`. It equals `lo` only when `hi` is 0.
- **Stage errors.** The code has no try around the extension stages, so an error in a stage propagates to the caller.
- **Stale byte count.** `cleanSocketAndSendData` leaves `bytes_read` as it was. Only the waiting flag guards the next header.
- **Bracketed DNS entry.** The brackets are read only when the entry holds two ":" or more, as an IPv6 address `h` does. Then `[h]` without a port gives the port text `h]`. An entry with no ":" or with one ":" keeps its brackets: "[example.com]" is the host with the port asked for, "[example.com]:80" gives host "[example.com]" and port "80", and "[a:b]" gives host "[a" and port "b]" (`Dns.EntryNoColon`, `Dns.EntryOneColon`).
- **Text cipher.** lib/io.js:24 calls `crypt.decrypt` without `needBuffer`, so lib/crypt.js:25-26 returns the deciphered bytes decoded as UTF-8 text. The real cipher pair therefore satisfies `decrypt(encrypt(m)) == Encode(Decode(m))`. Payloads that are not valid UTF-8 come back altered. `FrameIO.TextCipherDelivery` states what the codec delivers with that cipher, and `FrameIO.TextPayloadsRoundTrip` shows that text payloads survive.

On the listener path of lib/socks5.js:88-92, `remoteSocket` is assigned in the `listen` callback. That happens before any client can learn the listener's port, so `_handleClient(client, remoteSocket, server)` runs with a remote socket and without `data` or `closeServer`. It is `Socks5.HandleClient(true, None, false, ...)`.

## Model

| member | source | states |
|---|---|---|
| FrameIO.GetWritableData | lib/io.js:10-16 | the frame is 8 + n bytes long: a signed 64-bit little-endian header that reads back as n = the length of the encrypted chunk, then exactly the encrypted bytes |
| FrameIO.Frame | lib/io.js:12-13 | the 8-byte header and the n-byte body make a frame of 8 + n bytes; what the header reads back as is stated by GetWritableData |
| FrameIO.Feed | lib/io.js:18-64 | readData keeps the reader invariant: while waiting, bytes read < bytes to read and the stash holds exactly the bytes read; a throw leaves it not waiting |
| FrameIO.ShortHeaderThrows | lib/io.js:28-29 | an idle reader given fewer than 8 bytes throws on the header, delivers nothing and keeps its fields |
| FrameIO.FeedExact | lib/io.js:49-51 | a waiting reader whose chunk completes the frame delivers decrypt(stash ++ chunk) once and clears the waiting fields |
| FrameIO.FeedOvershoot | lib/io.js:52-57 | a waiting reader whose chunk overshoots delivers decrypt(stash ++ the missing bytes) first, then handles the rest as a fresh frame |
| FrameIO.FeedShort | lib/io.js:58-62 | a waiting reader whose chunk falls short delivers nothing and appends the chunk to the stash and its length to bytes read |
| FrameIO.FrameReader.CleanAndSend | lib/io.js:21-25 | clears the waiting fields, leaving bytes read stale, and appends decrypt(frame) to the delivered output |
| FrameIO.FrameReader.ReadData | lib/io.js:18-64 | the in-place readData keeps the invariant and leaves the fields, the result and the delivered output as Feed says |
| FrameIO.FrameReader.ReadHeader | lib/io.js:27-47 | the idle branches: short, exact and overshooting bodies, with the recursive call on the rest |
| FrameIO.FrameReader.ReadMore | lib/io.js:48-63 | the waiting branches: exact completion, overshoot with recursion, and a still-short append |
| FrameIO.FeedAll | lib/io.js:18-64 | readData over successive chunks keeps the reader invariant |
| FrameIO.FrameAt | lib/io.js:10-13 | in a concatenation of frames, frame k's header holds the length of its body and its body follows it |
| FrameIO.FeedChunks | lib/io.js:18-64 | chunks cut from a frame stream with no cut inside a header deliver the decrypted bodies of exactly the frames they complete, in order |
| FrameIO.StreamDelivery | lib/io.js:18-64 | a whole frame stream fed from a fresh reader delivers every frame's decrypted body once, in order, and ends idle |
| FrameIO.PayloadsRoundTrip | lib/io.js:10-64 | payloads written with getWritableData and read back through readData in chunks are delivered unchanged, in order, when decrypt inverts encrypt |
| FrameIO.DecryptedEncryptedAny | lib/io.js:10-24 | for any cipher pair, payload i read back is decrypt(encrypt(payload i)) |
| FrameIO.TextCipherDelivery | lib/io.js:10-64 | with the text-decoding cipher (decrypt(encrypt(m)) == UTF-8 encode of UTF-8 decode of m), a chunked frame stream delivers, for each payload in order, its UTF-8 decode re-encoded |
| FrameIO.TextPayloadsRoundTrip | lib/io.js:10-64 | with the text-decoding cipher, payloads that are UTF-8 text come back unchanged, in order |
| FrameIO.BinaryPayloadAltered | lib/io.js:24 | with the text-decoding cipher the one-byte payload FF comes back as EF BF BD |
| JsBuffer.Int64LERoundTrip | lib/io.js:12 | the length written with writeBigInt64LE reads back unchanged with readBigInt64LE |
| JsBuffer.ReadInt16BE | lib/socks5.js:53 | readInt16BE succeeds exactly on two bytes or more and gives a value in -32768..32767 that is the first two bytes big-endian modulo 65536, negative exactly when the top bit of the first byte is set |
| JsBuffer.Int16BERoundTrip | lib/socks5.js:53-57 | writeInt16BE of what readInt16BE read gives the same two bytes back |
| JsBuffer.WriteInt16BE | lib/socks5.js:57 | writeInt16BE throws exactly outside -32768..32767 and otherwise writes two bytes that read back as the value |
| JsBuffer.WriteUInt16BE | lib/socks5UDP.js:96 | writeUInt16BE throws exactly outside 0..65535 and otherwise writes the value big-endian in two bytes |
| Utf8.DecodeEncode | lib/socks5UDP.js:88 | a name encoded with Buffer.from(name, "utf8") decodes back to the same name |
| Utf8.Encode | lib/socks5UDP.js:88 | Buffer.from(s, "utf8") takes at least one byte per character |
| Utf8.Decode | lib/socks5UDP.js:77 | buf.toString("utf-8") gives at most one character per byte |
| Socks5Udp.StripClientHeader | lib/socks5UDP.js:81-85 | the result is a suffix of the datagram, shorter by exactly 6 + the address length when the header fits |
| Socks5Udp.AddClientHeader | lib/socks5UDP.js:87-99 | _addClientHeader succeeds only for a port in 0..65535, and then ends with the message after at least 6 header bytes; for a name it always succeeds in that range |
| Socks5Udp.ShouldWeRelay | lib/socks5UDP.js:74-79 | a datagram passes only for an rport in -32768..32767 and when it holds at least 6 + the address bytes |
| Socks5Udp.HeaderLayout | lib/socks5UDP.js:87-97 | the header is 0,0,0, ATYP 1/4/3 by address kind, the address (a name after its length byte), the port big-endian, then the message, 6 + field + message bytes; it throws exactly for a port outside 0..65535 |
| Socks5Udp.StripHeaderFor | lib/socks5UDP.js:81-97 | stripping a header built for a 4- or 16-byte IP or a name of at most 255 bytes gives the message back |
| Socks5Udp.AddStripRoundTrip | lib/socks5UDP.js:81-99 | _stripClientHeader(_addClientHeader(dest, msg)) == msg for every destination getIPAsBytes or UTF-8 can encode in a header |
| Socks5Udp.RelayIPv4 | lib/socks5UDP.js:74-79 | for ATYP 1, relay exactly when bytes 4-7 in dotted decimal equal rhost and bytes 8-9 as signed big-endian equal rport |
| Socks5Udp.RelayDomainPortEarly | lib/socks5UDP.js:75-78 | for a name, the port compared is the name's last byte with the first port byte, and the host is the decoded name |
| Socks5Udp.RelayOwnHeader | lib/socks5UDP.js:74-97 | an IPv4 header built for a port below 32768 passes the relay check for its own address and port |
| Socks5Udp.ClientDatagram | lib/socks5UDP.js:62-64 | a datagram from the client's address naming the destination is stripped and sent to the rewritten remote; its sender becomes udpClient if none is set |
| Socks5Udp.RemoteDatagram | lib/socks5UDP.js:62-65 | a datagram from the remote address that is not from the client's address, or fails the relay check, is dropped while udpClient is unset, and otherwise is exactly _addClientHeader of the original destination and the message (stripping gives it back), sent to udpClient |
| Socks5Udp.SpoofedDropped | lib/socks5UDP.js:61-66 | a datagram from neither address is dropped and changes nothing |
| Socks5Udp.Step | lib/socks5UDP.js:61-66 | one datagram sends at most one datagram; udpClient is only ever set from unset to the sender, and is set when something is sent without it; a throw sends nothing and changes nothing |
| Socks5Udp.StepAll | lib/socks5UDP.js:61-66 | n datagrams send at most n datagrams |
| Socks5Udp.ClientFixed | lib/socks5UDP.js:63 | once udpClient is set, no sequence of datagrams changes it |
| Socks5Udp.FirstRelayed | lib/socks5UDP.js:61-65 | starting without udpClient, a run that leaves it unset has sent nothing; once set it is the sender of one of the datagrams received |
| Socks5Udp.RunAll | lib/socks5UDP.js:54-66 | over datagrams and control-connection closes, at most one datagram is sent per event, the close count only grows, and a set udpClient stays |
| Socks5Udp.CloseCount | lib/socks5UDP.js:54 | the number of closes is zero exactly when the control connection never closed |
| Socks5Udp.ClosedSendsNothing | lib/socks5UDP.js:54 | once server.close() was called, later datagrams send nothing and change nothing, and every later close calls server.close() again |
| Socks5Udp.ServerClosedIffControlClosed | lib/socks5UDP.js:54 | without a throw, server.close() is called once per close of the control connection, so at least once exactly when it closed |
| Socks5Udp.SingleServerClose | lib/socks5UDP.js:54 | with the one "close" a socket emits, server.close() is called exactly once when the control connection closed and never otherwise, unless the message handler threw first |
| Socks5Udp.NothingAfterClose | lib/socks5UDP.js:54-66 | what the relay sends is what it sent before the first close of the control connection |
| Socks5Udp.UdpRelay.constructor | lib/socks5UDP.js:58-60 | rconInfo is preConnect(rhost, rport) through the stages, udpClient starts unset and nothing is sent |
| Socks5Udp.UdpRelay.OnMessage | lib/socks5UDP.js:61-66 | the message handler updates udpClient and appends the datagrams sent as the dispatcher step says, reporting a throw; after server.close() it does nothing |
| Socks5Udp.UdpRelay.OnControlClose | lib/socks5UDP.js:54 | the "close" handler calls server.close() once more and leaves udpClient and what was sent unchanged |
| Socks5.NegotiateReply | lib/socks5.js:41-46 | throws exactly when the first byte is missing or not 5; otherwise replies [5, 0] iff a zero byte occurs from index 2 on, else [5, 0xFF] |
| Socks5.NegotiateSocksMethod | lib/socks5.js:41-46 | succeeds exactly when the first byte is 5, else throws the bad-version error; the reply is two bytes, 5 then 0 or 0xFF |
| Socks5.OnlyConnect | lib/socks5.js:49-50 | a request with a version other than 5 or a command other than CONNECT throws a protocol error |
| Socks5.ParseIPv4 | lib/socks5.js:51-53 | a 10-byte IPv4 CONNECT names the dotted quad of bytes 4-7 and the signed big-endian port of bytes 8-9 |
| Socks5.ParseLoopback | lib/socks5.js:49-53 | 05 01 00 01 7F 00 00 01 00 50 parses to 127.0.0.1 port 80 |
| Socks5.ParseDomain | lib/socks5.js:51-53 | for a name the host is decoded from the length byte and all but the last name byte; the port is the last two bytes |
| Socks5.ParseIPv6Throws | lib/socks5.js:51-52 | an IPv6 CONNECT throws a ReferenceError from getIPFromBytes, outside the try |
| Socks5.ParseRequest | lib/socks5.js:49-53 | a parsed request had version 5 and CONNECT, and its port is in -32768..32767 |
| Socks5.ConnectReplyLayout | lib/socks5.js:57-59 | the success reply is 5, 0, 0, ATYP by family, the address bytes, the port as int16 big-endian; a port above 32767 throws |
| Socks5.ConnectReply | lib/socks5.js:57-59 | the reply is built exactly when the listener address converts to bytes and its port fits int16, and is then 6 + the address bytes long |
| Socks5.SetupReply | lib/socks5.js:55-62 | a connected request gets the success reply and keeps the proxy object, or, for a port above 32767, [5, 1, 0] and no proxy object |
| Socks5.SetupConnectFails | lib/socks5.js:55-62 | a request whose connection fails gets [5, 1, 0] and no proxy object |
| Socks5.SetupProxy | lib/socks5.js:48-63 | setupProxy throws exactly when the parse throws; without a proxy object the reply is [5, 1, 0], with one it is the connection made for host and port and the reply is a success reply of at least 6 bytes |
| Socks5.FirstMessage | lib/socks5.js:66-81 | message 0 writes the method reply, or ends and destroys the socket when it throws; the counter becomes 1 |
| Socks5.SecondMessage | lib/socks5.js:66-81 | message 1 writes setupProxy's reply and keeps its proxy object, or ends and destroys the socket on a throw; the counter becomes 2 |
| Socks5.LaterMessage | lib/socks5.js:70-73 | a later message does nothing without a proxy object; with one it writes the chunk to the remote, then closes the listener, and hands the connection over |
| Socks5.DataStep | lib/socks5.js:66-81 | each data event adds one to the message counter and only appends effects; the connection is handed over exactly from message 2 on with a proxy object |
| Socks5.SessionReact | lib/socks5.js:81-83 | each event only appends effects, keeps a handed-over connection handed over, and raises the counter by at most one |
| Socks5.HandleClientReactOnce | lib/socks5.js:103-117 | each _handleClient handler closes the listener at most once and only if not already stopped |
| Socks5.HandleClientReact | lib/socks5.js:105-117 | a handler appends at most two effects, never restarts a stopped listener, and without a remote socket can only close the listener |
| Socks5.HandleClient | lib/socks5.js:100-120 | _handleClient only appends effects; the listener is stopped exactly when closeServer is set, the last effect then being its close |
| Socks5.HandleClientOnce | lib/socks5.js:100-120 | over any events a handed-over connection closes the listener at most once more, and never again once stopped |
| Socks5.AcceptedInv | lib/socks5.js:80 | a freshly accepted connection satisfies the session invariant |
| Socks5.SessionReactInv | lib/socks5.js:66-83 | every event keeps the session invariant: no close before the hand-over, exactly one after |
| Socks5.SessionClosesOnce | lib/socks5.js:66-120 | over any events the listener is closed at most once, and exactly once iff the connection was handed over |
| Socks5.Session.constructor | lib/socks5.js:39-80 | a new session starts at message 0 with no proxy object; a set conf.timeout is applied |
| Socks5.Session.OnEvent | lib/socks5.js:81-83 | each event updates the session's fields and effects as SessionReact says |
| Socks5.Session.DataHandler | lib/socks5.js:66-78 | dataHandler's three branches on the message number, with throws caught into end and destroy |
| Socks5.Session.HandOver | lib/socks5.js:119 | the replayed chunk is written to the remote before the listener is closed |
| Socks5.Session.CheckStopServer | lib/socks5.js:103 | the listener is closed only when not already stopped, and the flag is then set |
| Socks5.Session.HandedOverEvent | lib/socks5.js:105-117 | the handlers _handleClient registers, as HandleClientReact says |
| Socks5Tcp.CreateTCPListener | lib/socks5TCP.js:31-34 | no listener exactly when noNewTCPServerPerClient is set |
| Socks5Tcp.RemoteConnectOptions | lib/socks5TCP.js:46 | the connect target is preConnect(host, port) through the stages, with the remote timeout exactly when it is truthy and not -1 |
| Socks5Tcp.ReactClosedOnce | lib/socks5TCP.js:82 | each handler closes the listener at most once, only when one exists and it is not stopped |
| Socks5Tcp.React | lib/socks5TCP.js:84-101 | a handler only appends effects, and the listener is stopped afterwards exactly when it was, or when one exists and the event is an end, error or timeout |
| Socks5Tcp.ReactAllClosedOnce | lib/socks5TCP.js:82-101 | over any events the listener is closed at most once more, and only if one exists |
| Socks5Tcp.CloseAtMostOnce | lib/socks5TCP.js:78-104 | from hook-up on, the listener is closed at most once, and never without a listener |
| Socks5Tcp.ReactRemoteWrites | lib/socks5TCP.js:84 | a client chunk adds exactly one remote write, of preOut(remote, chunk); other events add none |
| Socks5Tcp.ClientChunksInOrder | lib/socks5TCP.js:84-89 | the remote writes are the client chunks after the pre_out stages, in arrival order |
| Socks5Tcp.Teardown | lib/socks5TCP.js:85-101 | client end: stop, remote end; client error or timeout: stop, remote destroy; remote end: stop, client end; remote error or timeout: stop, client destroy |
| Socks5Tcp.HookUpOrder | lib/socks5TCP.js:103-104 | at hook-up the client data goes out first, then the remote data through pre_in, then the listener is closed |
| Socks5Tcp.HookUpTimeout | lib/socks5TCP.js:79 | the client timeout is set first, exactly when it is truthy and not -1 |
| Socks5Tcp.HookUp | lib/socks5TCP.js:79-104 | after hook-up the listener is stopped exactly when closeServer is set and one exists; a truthy client timeout other than -1 is the first effect |
| Socks5Tcp.TcpRelay.constructor | lib/socks5TCP.js:78-105 | handleSocksClient's hook-up leaves the state HookUp says |
| Socks5Tcp.TcpRelay.CheckStopServer | lib/socks5TCP.js:82 | checkStopServer closes the listener only if it exists and is not stopped |
| Socks5Tcp.TcpRelay.HandleClientData | lib/socks5TCP.js:84 | a client chunk is written to the remote after the pre_out stages |
| Socks5Tcp.TcpRelay.HandleRemoteData | lib/socks5TCP.js:97 | every chunk the pre_in chain delivers is written to the client, in order |
| Socks5Tcp.TcpRelay.OnEvent | lib/socks5TCP.js:85-101 | each registered handler changes the state as React says |
| Firewall.Firewall.Init | lib/firewall.js:14-21 | firewall is on only if configured and ipsAllowed is present; a missing list throws after resetting the checks; otherwise one check per entry, in order |
| Firewall.Firewall.IsAllowed | lib/firewall.js:23-29 | the loop with early return answers as Allowed: true when disabled, else the first matching check, a throw, or false |
| Firewall.EntryWithMask | lib/firewall.js:19-20 | "ip/mask" gives the text before "/" and the mask text after it |
| Firewall.EntryWithoutMask | lib/firewall.js:19-20 | an entry without "/" (not starting with "true") gets mask 128, whatever its family |
| Firewall.IpCheckOf | lib/firewall.js:19-20 | the rule address is a prefix of the entry; a mask text is never empty and a default mask is 32 or 128 |
| Firewall.OtherFamily | lib/firewall.js:35 | a peer never matches a rule of the other family |
| Firewall.MappedPeerNotIPv6 | lib/firewall.js:35 | an IPv4-mapped IPv6 peer is treated as IPv4 and matches no IPv6 rule |
| Firewall.IPv4Range | lib/firewall.js:37-42 | for mask 1..32 two IPv4 addresses match exactly when their top mask bits agree |
| Firewall.IPv4Compare | lib/firewall.js:37-42 | the int32 shift comparison equals comparing the unsigned values shifted by the count mod 32 |
| Firewall.IPv4DefaultMask | lib/firewall.js:19-42 | an IPv4 rule with the default mask 128 matches only its own address |
| Firewall.IPv4MaskZero | lib/firewall.js:41-42 | an IPv4 rule with mask 0 matches only its own address, the shift count being 32 mod 32 |
| Firewall.IPv6UpperHalf | lib/firewall.js:45 | two IPv6 addresses with the same non-zero upper half match whatever the mask |
| Firewall.As128BitInt | lib/firewall.js:45 | succeeds on 16 bytes or more; the value is below 2^128 and, when not below 2^64, a multiple of 2^64 |
| Firewall.IPv6MaskNaN | lib/firewall.js:41 | an IPv6 rule whose mask is not a number makes BigInt throw a RangeError |
| Firewall.CheckRange | lib/firewall.js:31-43 | a match requires both addresses to be of the same family and to convert to bytes |
| Firewall.FirstMatch | lib/firewall.js:26 | the loop answers true only when some check answered true, and throws only an error some check threw |
| Firewall.FirstMatchTrue | lib/firewall.js:26-28 | allowed exactly when some check matches and all before it ran and did not |
| Firewall.FirstMatchThrow | lib/firewall.js:26 | the first throwing check, with no match before it, makes isAllowed throw that error |
| Firewall.AllowedAnswer | lib/firewall.js:23-29 | with no check throwing: true when disabled, otherwise true iff some check matches, so an empty list denies |
| Firewall.Allowed | lib/firewall.js:23-29 | true when disabled; false when enabled with no checks; true when enabled only if some check matches |
| Utils.AnalyzeIPAddr | lib/utils.js:68-79 | IPv6 iff there is no "." or there is a ":" with "ffff" at index 1; the text is kept unless it has both ":" and "." and is classed IPv4 |
| Utils.MappedIPv4 | lib/utils.js:71-74 | "::ffff:a.b.c.d" is classed IPv4 with address a.b.c.d |
| Utils.QuadAnalyzed | lib/utils.js:76 | a dotted quad is classed IPv4 and kept |
| Utils.IPAsBytes | lib/utils.js:18-25 | a successful result has 16 bytes for IPv6 and 4 for IPv4 |
| Utils.GetIPAsBytes | lib/utils.js:18-25 | the buffer-filling loop gives IPAsBytes |
| Utils.WriteComponents | lib/utils.js:22 | writing the parsed components one by one throws a RangeError exactly when one is out of range or there are too many, and otherwise lays them out |
| Utils.LayoutIPv6 | lib/utils.js:20-22 | bytes 2i, 2i+1 hold group i big-endian and the bytes after the last group are 0 |
| Utils.LayoutValues | lib/utils.js:20-22 | for IPv4, byte i is the value of component i |
| Utils.GetIPFromBytes | lib/utils.js:27-37 | succeeds exactly on 4 bytes, with the decimal value of each byte between the dots |
| Utils.IPv4RoundTrip | lib/utils.js:18-28 | getIPAsBytes(getIPFromBytes(b)) == b for every 4 bytes |
| Utils.QuadBytes | lib/utils.js:18-28 | a dotted quad and its 4 bytes convert into each other |
| Utils.MappedQuadBytes | lib/utils.js:18-25 | "::ffff:a.b.c.d" converts to the 4 bytes of a.b.c.d |
| Utils.IPv6Uncompressed | lib/utils.js:18-25 | eight groups without "::" give the same result as writing their padded groups, parsed as hex |
| Utils.IPv6Compressed | lib/utils.js:18-25 | x::y gives the same result as writing x's padded groups, "0000" groups for the missing ones, then y's padded groups |
| Utils.IPv6UncompressedBytes | lib/utils.js:18-25 | eight groups of 1 to 4 hex digits always convert, to 16 bytes where bytes 2i and 2i+1 hold group i's hex value big-endian |
| Utils.IPv6CompressedBytes | lib/utils.js:18-25 | x::y with groups of at most 4 hex digits always converts: x's group values first, zero bytes for the missing groups, y's group values last |
| Utils.HexGroupsBytes | lib/utils.js:22 | eight padded hex groups are written without a RangeError, each group's value in its own two bytes |
| Utils.PaddedGroupValue | lib/utils.js:22 | parseInt of a group padded with leading zeros is the group's hex value, below 65536 |
| Utils.ParseHex | lib/utils.js:22 | parseInt(text, 16) of two or more hex digits is their value: no sign, no 0x prefix, no whitespace is read |
| Ipv6Expand.ExpandIPv6Address | lib/utils.js:39-65 | the imperative expandIPv6Address with its loops computes Expand |
| Ipv6Expand.Expand | lib/utils.js:39-65 | the only error is a TypeError, and a result holds eight groups of at least four characters with seven colons, so at least 39 characters |
| Ipv6Expand.JoinPaddedLength | lib/utils.js:60-63 | n groups of at least four characters joined by colons take at least 5n - 1 characters |
| Ipv6Expand.RewriteEmbeddedIpv4 | lib/utils.js:44-49 | the embedded-quad loop computes the regular-expression rewrite |
| Ipv6Expand.WriteOutDoubleColon | lib/utils.js:51-58 | the group-counting loops write "::" out as FullAddress says |
| Ipv6Expand.PadGroups | lib/utils.js:59-63 | the padding loop joins the first eight groups padded to four characters, and throws a TypeError for fewer than eight |
| Ipv6Expand.PadGroup | lib/utils.js:61 | the while loop left-pads a group with zeros to four characters |
| Ipv6Expand.Pad | lib/utils.js:61 | the padded group ends with the group, starts with zeros, and is four characters or the group itself if longer |
| Ipv6Expand.ExpandUncompressed | lib/utils.js:51-63 | eight groups without "::" expand to the same groups padded to four characters |
| Ipv6Expand.ExpandCompressed | lib/utils.js:52-63 | x::y expands to x's groups, the missing groups as 0000, then y's groups, all padded |
| Ipv6Expand.ExpandIdempotent | lib/utils.js:51-63 | expanding an already expanded address gives it back |
| Ipv6Expand.FullAddressTwoSides | lib/utils.js:53-57 | "::" is replaced by ":", 8 minus the groups present times "0000:", between the two sides |
| DottedQuad.NoQuadWithoutDot | lib/utils.js:45 | text without a dot never passes validateIpv4 |
| DottedQuad.JoinValid | lib/utils.js:42-45 | four octets joined by dots pass validateIpv4 wherever they occur |
| DottedQuad.FirstMatchFrom | lib/utils.js:46 | the match found is the leftmost: no match starts before it |
| DottedQuad.QuadFound | lib/utils.js:46 | extractIpv4 finds a.b.c.d after digit-free text, with its four groups |
| DottedQuad.QuadRewrite | lib/utils.js:45-49 | a trailing a.b.c.d is rewritten to the hex groups aabb:ccdd |
| DottedQuad.RewriteQuad | lib/utils.js:44-49 | text without a dotted quad is kept, and the only throw is a TypeError for text that has one |
| DottedQuad.ByteHexDigits | lib/utils.js:47 | ("00" + v.toString(16)).slice(-2) is the two hex digits of a byte |
| DottedQuad.DecValue | lib/utils.js:47 | parseInt of a decimal numeral gives its value back |
| DottedQuad.DecIsOctet | lib/utils.js:42 | the decimal form of 0..255 is one of validateIpv4's octet alternatives |
| DottedQuad.GroupsOfJoin | lib/utils.js:42 | extractIpv4 reads back the digit groups joined by dots |
| Extensions.ConnectFoldAppend | lib/extensionsmanager.js:19-23 | running two stage lists in turn is running their concatenation |
| Extensions.ConnectFoldStep | lib/extensionsmanager.js:21 | stage i receives the host and port returned by the stages before it |
| Extensions.ConnectFold | lib/extensionsmanager.js:19-23 | stages that return the host and port they are given leave {host, port} unchanged |
| Extensions.OutFoldAppend | lib/extensionsmanager.js:25-28 | the pre_out fold over a concatenation is the fold over the second list after the first |
| Extensions.OutFold | lib/extensionsmanager.js:25-28 | stages that return the chunk they are given leave it unchanged |
| Extensions.RunNoStages | lib/extensionsmanager.js:34 | with no pre_in stages the callback gets the chunk once |
| Extensions.Run | lib/extensionsmanager.js:30-39 | chainCall never leaves more stages than it started with |
| Extensions.RunOnce | lib/extensionsmanager.js:30-39 | when every stage calls its continuation once, the callback gets the composed data once and the list is used up |
| Extensions.TwiceBypasses | lib/extensionsmanager.js:31-37 | a stage calling its continuation twice sends its second output past the stages already shifted off |
| Extensions.Chain.constructor | lib/extensionsmanager.js:31 | the chain starts with a copy of the stages and nothing delivered |
| Extensions.Chain.Call | lib/extensionsmanager.js:33-37 | chainCall shifts the stage list and delivers as Run says |
| Extensions.Chain.CallEach | lib/extensionsmanager.js:33-37 | a stage's continuation calls, in order, deliver as RunAll says |
| Extensions.ExtensionsManager.constructor | lib/extensionsmanager.js:8 | the three stage lists start empty |
| Extensions.ExtensionsManager.InitSync | lib/extensionsmanager.js:10-17 | initSync appends the configured stages without clearing, so a second call duplicates them |
| Extensions.ExtensionsManager.PreConnect | lib/extensionsmanager.js:19-23 | the loop computes the left fold of the pre_connect stages from {host, port} |
| Extensions.ExtensionsManager.PreOut | lib/extensionsmanager.js:25-28 | the loop computes the left fold of the pre_out stages |
| Extensions.ExtensionsManager.PreIn | lib/extensionsmanager.js:30-39 | the callback receives what Run delivers; the configured stage list is left as it was |
| Dns.NoEntry | extensions/dns.js:11 | with no truthy entry under either key, {host, port} is returned unchanged |
| Dns.PlainKeyFirst | extensions/dns.js:9 | a truthy host:port entry wins over any [host]:port entry and is trimmed before parsing |
| Dns.BracketKeySecond | extensions/dns.js:10 | without a host:port entry a truthy [host]:port entry is trimmed and parsed |
| Dns.OnlyStage | extensions/dns.js:8-12 | as the only pre_connect stage the extension yields its preConnect result |
| Dns.PreConnect | extensions/dns.js:8-12 | {host, port} changes only when a truthy entry exists under one of the two keys, and the port is kept or becomes text from the entry |
| Dns.GetHostPort | extensions/dns.js:14-38 | the host is part of the entry, a prefix of it unless bracketed with several colons; the port is the one asked for or text shorter than the entry |
| Dns.BracketEntry | extensions/dns.js:17-20 | the host is part of the entry; with text after the last "]:" the port is that text, and otherwise the port asked for |
| Dns.EntryNoColon | extensions/dns.js:32-35 | an entry without ":" is the host, brackets included, with the port asked for |
| Dns.EntryOneColon | extensions/dns.js:27-30 | an entry with one ":" is host and port text around it |
| Dns.EntrySeveralColons | extensions/dns.js:22-25 | several ":" and no "[" give the entry as host and the port asked for |
| Dns.EntryBracketed | extensions/dns.js:16-20 | for an h with two ":" or more (an IPv6 address) and a p without "]", [h]:p gives host h and port text p, or the port asked for when p is empty |
| Dns.EntryBracketedNoPort | extensions/dns.js:16-20 | for an h with two ":" or more (an IPv6 address) and no "]", [h] without a port gives host h and port text "h]" |
| Aes.PreIn | extensions/aes.js:12-14 | preIn keeps the reader invariant of the socket's fields |
| Aes.IsEndpointEnabled | extensions/aes.js:16-20 | an endpoint is enabled only when some configuration entry is true |
| Aes.PreOut | extensions/aes.js:10 | preOut returns the chunk or an 8-byte header plus the encrypted chunk, and the chunk itself under an empty configuration |
| Aes.PreInAll | extensions/aes.js:12-14 | preIn over successive chunks keeps the reader invariant |
| Aes.EnabledPreInAll | extensions/aes.js:13 | for an enabled endpoint preIn over successive chunks is readData over them |
| Aes.DisabledPreInAll | extensions/aes.js:13 | for an endpoint not enabled preIn over successive chunks calls back with each chunk, fields untouched |
| Aes.PassThrough | extensions/aes.js:10-14 | for an endpoint not enabled, preOut returns the chunk and preIn calls back once with it, fields untouched |
| Aes.EnabledFrame | extensions/aes.js:10 | for an enabled endpoint preOut returns the frame of the encrypted chunk |
| Aes.OneChunkRoundTrip | extensions/aes.js:10-14 | preIn on a fresh socket undoes preOut, delivering the chunk once |
| Aes.EnabledStream | extensions/aes.js:12-13 | preIn called on each chunk of a framed stream, for an enabled endpoint, succeeds and calls back with the payloads, in order, when decrypt inverts encrypt |
| Aes.EnabledTextStream | extensions/aes.js:12-13 | with the text-decoding cipher, preIn on an enabled endpoint delivers each payload's UTF-8 decode re-encoded, in order |
| Aes.AddressEnablesAll | extensions/aes.js:19 | a truthy entry for the bare address enables every port of it |
| Aes.UnbracketedKey | extensions/aes.js:17-19 | an addr:port key enables the endpoint iff its family is not IPv6 |
| Aes.OtherPort | extensions/aes.js:17-19 | an addr:port key does not enable the same address on another port |

## Left out

- Sockets, listeners and their asynchronous resolution are left out: the listener creation in lib/socks5.js:86-98, `createSOCKS5Proxy` in lib/socks5TCP.js:44-66 and lib/socks5UDP.js:31-43. Their outcome is the `connect` parameter, or the configuration given to `Socks5Tcp.RemoteConnectOptions`. The once-handlers of `remoteConnect` are not modelled.
- Startup is left out: `bootstrap` (lib/socks5.js:18-36) and the root socks5.js. They only log, create servers and fork processes.
- lib/crypt.js is left out. The cipher (AES-256-CTR with a random IV) is the `encrypt` and `decrypt` parameters.
- Timers, path constants, the clock and `getDateTime` are left out: lib/Timer.js, lib/constants.js and lib/utils.js:5-16.
- test/udpClient.js is a network client over an external library and is left out.
- The 16-byte branch of `getIPFromBytes` is partial. It never terminates and uses an undeclared variable. Its first step throws a ReferenceError, which is all the model keeps.
- Logging is left out.
- Dynamic `require` of the extension modules is left out. The stage lists are given sequences.
- Extension stages are total functions. A stage that throws is not modelled.
- Re-entrancy is left out. `opFunc`, the `preIn` continuations and the `await` in `dataHandler` are treated as synchronous. Events are handled one at a time.
- A socket that already has reassembly fields from another stage is left out. `Aes.PreIn` gives each socket one set of fields.
- Socks5Tcp.TcpRelay.constructor: `remoteSocket` is assumed set. On the listener path it is undefined, and `remoteSocket.removeAllListeners()` throws a TypeError before any handler is registered; the model does not include that path.
- JsText.StringToNumber recognises trimmed decimal integers and 0x hex only. Fractions and exponents in a firewall mask become NaN.
- Firewall.Firewall.Init: an `ipsAllowed` that is present but not an array is not modelled. The list is either a sequence or missing.
- Socks5Udp.UdpRelay.OnMessage: a throw from the relay check or the header write is reported as an error result. In the code it is an uncaught exception in the message handler.
- The relay's UDP error handler only logs and is left out.
- Socks5Udp.RunAll: any number of ControlClosed events is accepted, and each is counted as one more server.close(). A socket emits "close" once, and a second `close()` of the UDP socket would throw; SingleServerClose states the behaviour for the single close.
- Socks5Tcp.TcpRelay.HandleRemoteData: preIn stages are functions of the chunk alone. State a stage keeps on the socket across "data" events, like the AES frame reassembly, is modelled only in `Aes.PreIn`.
- `tcpClient.setTimeout(0)` and `server.removeAllListeners()` (lib/socks5UDP.js:55-56) act on socket timers and on handlers registered before the relay existed. Neither is modelled; the relay starts with only its own handlers.
