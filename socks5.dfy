/**
 * The SOCKS5 control connection of lib/socks5.js (RFC 1928): method negotiation
 * (section 3), the CONNECT request (section 4) and its reply (section 6), the per-socket
 * message counter that drives them, and _handleClient, which turns a connection into a
 * plain relay to the remote end. Opening the listener and the remote connection is not
 * modelled: its outcome for a given host and port is an input.
 */
module Socks5 {
  import opened JsBase
  import opened JsBuffer
  import opened JsText
  import opened DottedQuad
  import opened Utf8
  import opened Utils
  import opened Extensions
  import opened Socks5Tcp

  const VERSION: byte := 0x05
  const CMD_CONNECT: byte := 0x01
  const NO_AUTH: byte := 0x00
  const NO_ACCEPTABLE: byte := 0xFF

  const BAD_VERSION := "Bad SOCKS5 version byte."
  const ONLY_CONNECT := "Only CONNECT is supported."

  // ---- negotiation ----

  /**
   * negotiateSocksMethod(chunk): the method reply, or a throw when the version byte is
   * not 5. Every byte from index 2 on counts as an offered method; NMETHODS is not read.
   */
  function NegotiateSocksMethod(chunk: Bytes): (r: Result<Bytes>)
    ensures r.Ok? <==> |chunk| > 0 && chunk[0] == VERSION
    ensures r.Throw? ==> r.error == ProtocolError(BAD_VERSION)
    ensures r.Ok? ==> |r.value| == 2 && r.value[0] == VERSION && (r.value[1] == NO_AUTH || r.value[1] == NO_ACCEPTABLE)
  {
    if ByteAt(chunk, 0) != Some(VERSION) then Throw(ProtocolError(BAD_VERSION))
    else
      var methods := SliceFrom(chunk, 2);
      Ok([VERSION, if Includes(methods, NO_AUTH) then NO_AUTH else NO_ACCEPTABLE])
  }

  /**
   * The reply is [5, 0] when a zero byte appears anywhere from index 2 on and [5, 0xFF]
   * otherwise, and the call throws exactly when the first byte is missing or not 5.
   */
  lemma NegotiateReply(chunk: Bytes)
    ensures NegotiateSocksMethod(chunk).Ok? <==> |chunk| > 0 && chunk[0] == VERSION
    ensures NegotiateSocksMethod(chunk).Throw? ==> NegotiateSocksMethod(chunk).error == ProtocolError(BAD_VERSION)
    ensures NegotiateSocksMethod(chunk).Ok? ==>
      ((NegotiateSocksMethod(chunk).value == [VERSION, NO_AUTH])
         <==> (exists i :: 2 <= i < |chunk| && chunk[i] == NO_AUTH))
    ensures NegotiateSocksMethod(chunk).Ok? ==>
      NegotiateSocksMethod(chunk).value == [VERSION, NO_AUTH]
      || NegotiateSocksMethod(chunk).value == [VERSION, NO_ACCEPTABLE]
  {
    if |chunk| > 0 && chunk[0] == VERSION {
      var methods := SliceFrom(chunk, 2);
      if NO_AUTH in methods {
        var j :| 0 <= j < |methods| && methods[j] == NO_AUTH;
        assert chunk[j + SliceIndex(2, |chunk|)] == NO_AUTH;
      }
      if exists i :: 2 <= i < |chunk| && chunk[i] == NO_AUTH {
        var i :| 2 <= i < |chunk| && chunk[i] == NO_AUTH;
        assert methods[i - 2] == NO_AUTH;
      }
    }
  }

  // ---- the CONNECT request ----

  /** The destination setupProxy reads from the request. */
  datatype Request = Request(host: string, port: int)

  /** The address bytes setupProxy takes: for a name, bytes 4 .. 4 + byte 4, length byte included. */
  function RequestAddress(chunk: Bytes): Bytes {
    var atyp := ByteAt(chunk, 3);
    if atyp == Some(ATYP_IPV4) then Slice(chunk, 4, 8)
    else if atyp == Some(ATYP_IPV6) then Slice(chunk, 4, 20)
    else match ByteAt(chunk, 4)
      case None => []  // slice(4, NaN) is empty
      case Some(n) => Slice(chunk, 4, 4 + n as int)
  }

  const ATYP_IPV4: byte := 0x01
  const ATYP_DOMAIN: byte := 0x03
  const ATYP_IPV6: byte := 0x04

  /** The address as text: UTF-8 for ATYP 3, getIPFromBytes otherwise. */
  function RequestHost(chunk: Bytes, addr: Bytes): Result<string> {
    if ByteAt(chunk, 3) == Some(ATYP_DOMAIN) then Ok(Decode(addr)) else GetIPFromBytes(addr)
  }

  /** The port: the chunk's last two bytes, signed big-endian. */
  function RequestPort(chunk: Bytes): Result<int> {
    ReadInt16BE(SliceFrom(chunk, |chunk| - 2))
  }

  /**
   * The part of setupProxy before its try block: the version and command checks, then
   * the address and the port. What this throws is not caught by setupProxy.
   */
  function ParseRequest(chunk: Bytes): (r: Result<Request>)
    ensures r.Ok? ==> |chunk| >= 2 && chunk[0] == VERSION && chunk[1] == CMD_CONNECT
    ensures r.Ok? ==> -32768 <= r.value.port < 32768
  {
    if ByteAt(chunk, 0) != Some(VERSION) then Throw(ProtocolError(BAD_VERSION))
    else if ByteAt(chunk, 1) != Some(CMD_CONNECT) then Throw(ProtocolError(ONLY_CONNECT))
    else
      var host :- RequestHost(chunk, RequestAddress(chunk));
      var port :- RequestPort(chunk);
      Ok(Request(host, port))
  }

  /** Only CONNECT with version 5 gets past the first checks. */
  lemma OnlyConnect(chunk: Bytes)
    requires |chunk| < 2 || chunk[0] != VERSION || chunk[1] != CMD_CONNECT
    ensures ParseRequest(chunk).Throw? && ParseRequest(chunk).error.ProtocolError?
  {
  }

  /** An IPv4 CONNECT of ten bytes is the dotted quad of bytes 4-7 and the signed port in bytes 8-9. */
  lemma ParseIPv4(chunk: Bytes)
    requires |chunk| == 10 && chunk[0] == VERSION && chunk[1] == CMD_CONNECT && chunk[3] == ATYP_IPV4
    ensures ParseRequest(chunk)
         == Ok(Request(Quad(chunk[4] as nat, chunk[5] as nat, chunk[6] as nat, chunk[7] as nat),
                       ReadInt16BE(chunk[8..10]).value))
  {
    var addr := RequestAddress(chunk);
    assert addr == [chunk[4], chunk[5], chunk[6], chunk[7]] by {
      assert addr == chunk[4..8];
    }
    BytesQuad(chunk[4], chunk[5], chunk[6], chunk[7]);
    assert RequestHost(chunk, addr) == GetIPFromBytes(addr);
    assert SliceFrom(chunk, |chunk| - 2) == chunk[8..10];
  }

  /** `05 01 00 01 7F 00 00 01 00 50` is CONNECT 127.0.0.1:80. */
  lemma ParseLoopback()
    ensures ParseRequest([5, 1, 0, 1, 127, 0, 0, 1, 0, 0x50]) == Ok(Request("127.0.0.1", 80))
  {
    LoopbackRequest([5, 1, 0, 1, 127, 0, 0, 1, 0, 0x50]);
  }

  lemma LoopbackRequest(chunk: Bytes)
    requires chunk == [5, 1, 0, 1, 127, 0, 0, 1, 0, 0x50]
    ensures ParseRequest(chunk) == Ok(Request("127.0.0.1", 80))
  {
    ParseIPv4(chunk);
    LoopbackFields(chunk);
  }

  lemma LoopbackFields(chunk: Bytes)
    requires chunk == [5, 1, 0, 1, 127, 0, 0, 1, 0, 0x50]
    ensures Quad(chunk[4] as nat, chunk[5] as nat, chunk[6] as nat, chunk[7] as nat) == "127.0.0.1"
    ensures ReadInt16BE(chunk[8..10]) == Ok(80)
  {
    LoopbackText();
    assert chunk[8..10] == [0, 0x50];
  }

  lemma LoopbackText()
    ensures Quad(127, 0, 0, 1) == "127.0.0.1"
  {
    assert NatToDec(127) == "127" by {
      assert NatToDec(1) == "1";
      assert NatToDec(12) == "12";
    }
    assert NatToDec(0) == "0" && NatToDec(1) == "1";
    assert Join(["0", "1"], ".") == "0.1";
    assert Join(["0", "0", "1"], ".") == "0.0.1";
  }

  /**
   * For a name, the host is decoded from the length byte and all but the last byte of the
   * name, since the slice starts at index 4.
   */
  lemma ParseDomain(name: Bytes, port: Bytes)
    requires 0 < |name| <= 255 && |port| == 2
    ensures ParseRequest([VERSION, CMD_CONNECT, 0, ATYP_DOMAIN, |name| as byte] + name + port)
         == Ok(Request(Decode([|name| as byte] + name[..|name| - 1]), ReadInt16BE(port).value))
  {
    var chunk := [VERSION, CMD_CONNECT, 0, ATYP_DOMAIN, |name| as byte] + name + port;
    DomainRequest(chunk, name, port);
  }

  lemma DomainRequest(chunk: Bytes, name: Bytes, port: Bytes)
    requires 0 < |name| <= 255 && |port| == 2
    requires chunk == [VERSION, CMD_CONNECT, 0, ATYP_DOMAIN, |name| as byte] + name + port
    ensures RequestAddress(chunk) == [|name| as byte] + name[..|name| - 1]
    ensures ByteAt(chunk, 3) == Some(ATYP_DOMAIN)
    ensures RequestPort(chunk) == ReadInt16BE(port)
  {
    assert chunk[4] as int == |name|;
    assert chunk[4..4 + |name|] == [|name| as byte] + name[..|name| - 1];
    assert SliceFrom(chunk, |chunk| - 2) == port;
  }

  /** An IPv6 CONNECT throws before the try block: getIPFromBytes has no 16-byte case that returns. */
  lemma ParseIPv6Throws(chunk: Bytes)
    requires |chunk| >= 20 && chunk[0] == VERSION && chunk[1] == CMD_CONNECT && chunk[3] == ATYP_IPV6
    ensures ParseRequest(chunk) == Throw(ReferenceError)
  {
    assert |RequestAddress(chunk)| == 16;
  }

  // ---- the reply ----

  /** server.address() of the listener opened for the client. */
  datatype Bound = Bound(family: string, address: string, port: int)

  /** What _createSOCKS5Proxy resolves with: the listener and the connected remote socket. */
  datatype ProxyObj = ProxyObj(server: Bound, remote: Endpoint)

  const FAILURE_REPLY: Bytes := [VERSION, 0x01, 0x00]

  /**
   * The success reply: version, 0, 0, ATYP of the listener's family, its address bytes and
   * its port; getIPAsBytes and writeInt16BE may throw.
   */
  function ConnectReply(server: Bound): (r: Result<Bytes>)
    ensures r.Ok? <==> IPAsBytes(server.address).Ok? && -32768 <= server.port < 32768
    ensures r.Ok? ==> |r.value| == 6 + |IPAsBytes(server.address).value|
  {
    var addr :- IPAsBytes(server.address);
    var port :- WriteInt16BE(server.port);
    Ok([VERSION, 0x00, 0x00, if server.family == "IPv4" then ATYP_IPV4 else ATYP_IPV6] + addr + port)
  }

  /** What setupProxy writes and resolves with. */
  datatype SetupOutcome = SetupOutcome(reply: Bytes, proxyObj: Option<ProxyObj>)

  /**
   * setupProxy(chunk), where `connect` gives the outcome of opening the listener and the
   * remote connection for a host and port (None when it rejects). Any throw inside the try
   * block gives the failure reply and an undefined result.
   */
  function SetupProxy(connect: (string, int) -> Option<ProxyObj>, chunk: Bytes): (r: Result<SetupOutcome>)
    ensures r.Ok? <==> ParseRequest(chunk).Ok?
    ensures r.Ok? && r.value.proxyObj.None? ==> r.value.reply == FAILURE_REPLY
    ensures r.Ok? && r.value.proxyObj.Some? ==>
      r.value.proxyObj == connect(ParseRequest(chunk).value.host, ParseRequest(chunk).value.port)
      && |r.value.reply| >= 6 && r.value.reply[1] == 0x00
  {
    var req :- ParseRequest(chunk);
    var conn := connect(req.host, req.port);
    if conn.None? then Ok(SetupOutcome(FAILURE_REPLY, None))
    else
      var reply := ConnectReply(conn.value.server);
      if reply.Throw? then Ok(SetupOutcome(FAILURE_REPLY, None))
      else
        ConnectReplyLayout(conn.value.server, IPAsBytes(conn.value.server.address).value);
        assert reply.value[1] == reply.value[..4][1];
        Ok(SetupOutcome(reply.value, conn))
  }

  /**
   * A connected request gets [5, 0, 0, ATYP, address bytes, port as int16 big-endian] and
   * keeps the proxy object; a listener port above 32767 makes writeInt16BE throw inside the
   * try, which gives [5, 1, 0] and no proxy object.
   */
  lemma SetupReply(connect: (string, int) -> Option<ProxyObj>, chunk: Bytes, addr: Bytes)
    requires ParseRequest(chunk).Ok?
    requires var req := ParseRequest(chunk).value;
      connect(req.host, req.port).Some? && IPAsBytes(connect(req.host, req.port).value.server.address) == Ok(addr)
    ensures var obj := connect(ParseRequest(chunk).value.host, ParseRequest(chunk).value.port).value;
      var s := SetupProxy(connect, chunk);
      s.Ok?
      && (-32768 <= obj.server.port < 32768 ==>
            s.value.proxyObj == Some(obj)
            && |s.value.reply| == 4 + |addr| + 2
            && s.value.reply[..4] == [VERSION, 0, 0, if obj.server.family == "IPv4" then ATYP_IPV4 else ATYP_IPV6]
            && s.value.reply[4..4 + |addr|] == addr
            && ReadInt16BE(s.value.reply[4 + |addr|..]) == Ok(obj.server.port))
      && (obj.server.port >= 32768 ==> s.value == SetupOutcome(FAILURE_REPLY, None))
  {
    var obj := connect(ParseRequest(chunk).value.host, ParseRequest(chunk).value.port).value;
    ConnectReplyLayout(obj.server, addr);
  }

  /**
   * The success reply for a bound listener: version, 0, 0, the address type, the address
   * bytes and the port as int16 big-endian; a port above 32767 throws.
   */
  lemma ConnectReplyLayout(server: Bound, addr: Bytes)
    requires IPAsBytes(server.address) == Ok(addr)
    ensures -32768 <= server.port < 32768 ==>
      var r := ConnectReply(server);
      r.Ok? && |r.value| == 4 + |addr| + 2
      && r.value[..4] == [VERSION, 0, 0, if server.family == "IPv4" then ATYP_IPV4 else ATYP_IPV6]
      && r.value[4..4 + |addr|] == addr
      && ReadInt16BE(r.value[4 + |addr|..]) == Ok(server.port)
    ensures server.port >= 32768 ==> ConnectReply(server).Throw?
  {
    if -32768 <= server.port < 32768 {
      var p := WriteInt16BE(server.port).value;
      var head := [VERSION, 0x00, 0x00, if server.family == "IPv4" then ATYP_IPV4 else ATYP_IPV6];
      var r := head + addr + p;
      assert ConnectReply(server) == Ok(r);
      assert r[..4] == head && r[4..4 + |addr|] == addr && r[4 + |addr|..] == p;
    }
  }

  /** A request whose connection cannot be opened gets [5, 1, 0] and no proxy object. */
  lemma SetupConnectFails(connect: (string, int) -> Option<ProxyObj>, chunk: Bytes)
    requires ParseRequest(chunk).Ok?
    requires connect(ParseRequest(chunk).value.host, ParseRequest(chunk).value.port).None?
    ensures SetupProxy(connect, chunk) == Ok(SetupOutcome(FAILURE_REPLY, None))
  {
  }

  // ---- _handleClient ----

  /**
   * The handlers _handleClient registers, given whether remoteSocket is set. There is no
   * timeout handler, and the server is never null here.
   */
  function HandleClientReact(hasRemote: bool, s: RelayState, e: Event): (r: RelayState)
    ensures s.effects <= r.effects && |r.effects| <= |s.effects| + 2
    ensures s.stopped ==> r.stopped
    ensures !hasRemote ==> forall i :: |s.effects| <= i < |r.effects| ==> r.effects[i] == ServerClose
  {
    var stop := if s.stopped then s else RelayState(true, s.effects + [ServerClose]);
    match e
    case ClientData(chunk) => RelayState(s.stopped, s.effects + if hasRemote then [RemoteWrite(chunk)] else [])
    case ClientEndEvent => RelayState(true, stop.effects + if hasRemote then [RemoteEnd] else [])
    case ClientError => RelayState(true, stop.effects + if hasRemote then [RemoteDestroy] else [])
    case ClientTimeout => s
    case RemoteData(chunk) => if hasRemote then RelayState(s.stopped, s.effects + [ClientWrite(chunk)]) else s
    case RemoteEndEvent => if hasRemote then RelayState(true, stop.effects + [ClientEnd]) else s
    case RemoteError => if hasRemote then RelayState(true, stop.effects + [ClientDestroy]) else s
    case RemoteTimeout => s
  }

  /** _handleClient(client, remoteSocket, server, data, closeServer) before any event. */
  function HandleClient(hasRemote: bool, data: Option<Bytes>, closeServer: bool, effects: seq<Effect>): (r: RelayState)
    ensures effects <= r.effects
    ensures r.stopped <==> closeServer
    ensures closeServer ==> |r.effects| > 0 && r.effects[|r.effects| - 1] == ServerClose
  {
    var s0 := RelayState(false, effects);
    var s1 := if data.Some? then HandleClientReact(hasRemote, s0, ClientData(data.value)) else s0;
    if closeServer then RelayState(true, s1.effects + [ServerClose]) else s1
  }

  // ---- the message counter ----

  /** Where the control connection is: still counting messages, or handed to _handleClient. */
  datatype Phase = Counting | HandedOver

  /** The socket's closure variables and the effects so far. */
  datatype SessionState = SessionState(
    phase: Phase,
    messageNumber: nat,
    proxyObj: Option<ProxyObj>,
    relay: RelayState)

  /** The state of a freshly accepted client: `if (conf.timeout)` sets the socket timeout. */
  function Accepted(timeout: Option<int>): SessionState {
    var effects := if timeout.Some? && timeout.value != 0 then [ClientSetTimeout(timeout.value)] else [];
    SessionState(Counting, 0, None, RelayState(false, effects))
  }

  /** A throw caught in dataHandler ends and destroys the client socket. */
  function Caught(s: SessionState): SessionState {
    s.(relay := s.relay.(effects := s.relay.effects + [ClientEnd, ClientDestroy]))
  }

  /** dataHandler(chunk) followed by messageNumber++. */
  function DataStep(connect: (string, int) -> Option<ProxyObj>, s: SessionState, chunk: Bytes): (r: SessionState)
    requires s.phase == Counting
    ensures r.messageNumber == s.messageNumber + 1
    ensures s.relay.effects <= r.relay.effects
    ensures r.phase == HandedOver <==> s.messageNumber >= 2 && s.proxyObj.Some?
  {
    var next := s.(messageNumber := s.messageNumber + 1);
    if s.messageNumber == 0 then
      var reply := NegotiateSocksMethod(chunk);
      if reply.Throw? then Caught(next)
      else next.(relay := next.relay.(effects := next.relay.effects + [ClientWrite(reply.value)]))
    else if s.messageNumber == 1 then
      var setup := SetupProxy(connect, chunk);
      if setup.Throw? then Caught(next)
      else next.(proxyObj := setup.value.proxyObj,
                 relay := next.relay.(effects := next.relay.effects + [ClientWrite(setup.value.reply)]))
    else if s.proxyObj.Some? then
      next.(phase := HandedOver, relay := HandleClient(true, Some(chunk), true, s.relay.effects))
    else next
  }

  /** One event on the control connection. */
  function SessionReact(connect: (string, int) -> Option<ProxyObj>, s: SessionState, e: Event): (r: SessionState)
    ensures s.relay.effects <= r.relay.effects
    ensures s.phase == HandedOver ==> r.phase == HandedOver && r.messageNumber == s.messageNumber
    ensures s.messageNumber <= r.messageNumber <= s.messageNumber + 1
  {
    if s.phase == HandedOver then s.(relay := HandleClientReact(true, s.relay, e))
    else match e
      case ClientData(chunk) => DataStep(connect, s, chunk)
      case ClientError => Caught(s)
      case ClientTimeout => s.(relay := s.relay.(effects := s.relay.effects + [ClientEnd]))
      case _ => s
  }

  function SessionAll(connect: (string, int) -> Option<ProxyObj>, s: SessionState, events: seq<Event>): SessionState
    decreases |events|
  {
    if events == [] then s else SessionAll(connect, SessionReact(connect, s, events[0]), events[1..])
  }

  // ---- properties of the session ----

  /** The first message is answered with the method reply, or the socket is closed when it throws. */
  lemma FirstMessage(connect: (string, int) -> Option<ProxyObj>, timeout: Option<int>, chunk: Bytes)
    ensures var s := Accepted(timeout);
      var t := SessionReact(connect, s, ClientData(chunk));
      t.messageNumber == 1 && t.phase == Counting && t.proxyObj.None?
      && t.relay.effects == s.relay.effects
           + (if NegotiateSocksMethod(chunk).Ok? then [ClientWrite(NegotiateSocksMethod(chunk).value)]
              else [ClientEnd, ClientDestroy])
  {
  }

  /** The second message is the request: its reply is written and its proxy object kept. */
  lemma SecondMessage(connect: (string, int) -> Option<ProxyObj>, s: SessionState, chunk: Bytes)
    requires s.phase == Counting && s.messageNumber == 1
    ensures var t := SessionReact(connect, s, ClientData(chunk));
      t.messageNumber == 2 && t.phase == Counting
      && (SetupProxy(connect, chunk).Ok? ==>
            t.proxyObj == SetupProxy(connect, chunk).value.proxyObj
            && t.relay.effects == s.relay.effects + [ClientWrite(SetupProxy(connect, chunk).value.reply)])
      && (SetupProxy(connect, chunk).Throw? ==>
            t.proxyObj == s.proxyObj && t.relay.effects == s.relay.effects + [ClientEnd, ClientDestroy])
  {
  }

  /**
   * A later message does something only when a proxy object was set: the chunk is written
   * to the remote socket and then the listener is closed, and the connection is handed over.
   */
  lemma LaterMessage(connect: (string, int) -> Option<ProxyObj>, s: SessionState, chunk: Bytes)
    requires s.phase == Counting && s.messageNumber >= 2
    ensures var t := SessionReact(connect, s, ClientData(chunk));
      (s.proxyObj.None? ==> t.relay == s.relay && t.phase == Counting)
      && (s.proxyObj.Some? ==>
            t.phase == HandedOver && t.relay == RelayState(true, s.relay.effects + [RemoteWrite(chunk), ServerClose]))
  {
  }

  /** The listener is closed at most once by a handed-over connection, whatever happens next. */
  lemma {:induction false} HandleClientOnce(s: RelayState, events: seq<Event>, hasRemote: bool)
    decreases |events|
    ensures var t := HandleClientAll(hasRemote, s, events);
      (s.stopped ==> Closes(t.effects) == Closes(s.effects))
      && Closes(t.effects) <= Closes(s.effects) + 1
      && t.stopped == (s.stopped || Closes(t.effects) == Closes(s.effects) + 1)
  {
    if events != [] {
      var u := HandleClientReact(hasRemote, s, events[0]);
      HandleClientReactOnce(hasRemote, s, events[0]);
      HandleClientOnce(u, events[1..], hasRemote);
    }
  }

  function HandleClientAll(hasRemote: bool, s: RelayState, events: seq<Event>): RelayState
    decreases |events|
  {
    if events == [] then s else HandleClientAll(hasRemote, HandleClientReact(hasRemote, s, events[0]), events[1..])
  }

  lemma HandleClientReactOnce(hasRemote: bool, s: RelayState, e: Event)
    ensures var t := HandleClientReact(hasRemote, s, e);
      (s.stopped ==> t.stopped && Closes(t.effects) == Closes(s.effects))
      && (!s.stopped ==> Closes(t.effects) == Closes(s.effects) + (if t.stopped then 1 else 0))
  {
    var stop := if s.stopped then s else RelayState(true, s.effects + [ServerClose]);
    ClosesAppend(s.effects, [ServerClose]);
    match e
    case ClientData(chunk) => ClosesAppend(s.effects, if hasRemote then [RemoteWrite(chunk)] else []);
    case ClientEndEvent => ClosesAppend(stop.effects, if hasRemote then [RemoteEnd] else []);
    case ClientError => ClosesAppend(stop.effects, if hasRemote then [RemoteDestroy] else []);
    case ClientTimeout =>
    case RemoteData(chunk) => ClosesAppend(s.effects, [ClientWrite(chunk)]);
    case RemoteEndEvent => ClosesAppend(stop.effects, [ClientEnd]);
    case RemoteError => ClosesAppend(stop.effects, [ClientDestroy]);
    case RemoteTimeout =>
  }

  // ---- the whole session ----

  /**
   * What the session keeps: before the hand-over the listener is never closed; after it,
   * the listener has been closed exactly once and serverStopped is set.
   */
  predicate SessionInv(s: SessionState) {
    (s.phase == Counting && Closes(s.relay.effects) == 0)
    || (s.phase == HandedOver && s.relay.stopped && Closes(s.relay.effects) == 1)
  }

  lemma AcceptedInv(timeout: Option<int>)
    ensures SessionInv(Accepted(timeout))
  {
  }

  lemma SessionReactInv(connect: (string, int) -> Option<ProxyObj>, s: SessionState, e: Event)
    requires SessionInv(s)
    ensures SessionInv(SessionReact(connect, s, e))
  {
    var effects := s.relay.effects;
    if s.phase == HandedOver {
      HandleClientReactOnce(true, s.relay, e);
    } else {
      match e
      case ClientData(chunk) =>
        ClosesAppend(effects, [ClientEnd, ClientDestroy]);
        if s.messageNumber == 0 {
          if NegotiateSocksMethod(chunk).Ok? {
            ClosesAppend(effects, [ClientWrite(NegotiateSocksMethod(chunk).value)]);
          }
        } else if s.messageNumber == 1 {
          if SetupProxy(connect, chunk).Ok? {
            ClosesAppend(effects, [ClientWrite(SetupProxy(connect, chunk).value.reply)]);
          }
        } else if s.proxyObj.Some? {
          ClosesAppend(effects, [RemoteWrite(chunk)]);
          ClosesAppend(effects + [RemoteWrite(chunk)], [ServerClose]);
        }
      case ClientError => ClosesAppend(effects, [ClientEnd, ClientDestroy]);
      case ClientTimeout => ClosesAppend(effects, [ClientEnd]);
      case _ =>
    }
  }

  /**
   * Over any sequence of events on an accepted control connection, the listener is closed
   * at most once, and exactly once when the connection has been handed over.
   */
  lemma {:induction false} SessionClosesOnce(connect: (string, int) -> Option<ProxyObj>, s: SessionState, events: seq<Event>)
    requires SessionInv(s)
    decreases |events|
    ensures var t := SessionAll(connect, s, events);
      SessionInv(t) && Closes(t.relay.effects) <= 1
      && (t.phase == HandedOver <==> Closes(t.relay.effects) == 1)
  {
    if events != [] {
      SessionReactInv(connect, s, events[0]);
      SessionClosesOnce(connect, SessionReact(connect, s, events[0]), events[1..]);
    }
  }

  /** The control connection of one SOCKS5 client: the closure variables of _handle_client_socket and _handleClient. */
  class Session {
    const connect: (string, int) -> Option<ProxyObj>
    var phase: Phase
    var messageNumber: nat
    var proxyObj: Option<ProxyObj>
    var serverStopped: bool
    var effects: seq<Effect>

    function State(): SessionState
      reads this
    {
      SessionState(phase, messageNumber, proxyObj, RelayState(serverStopped, effects))
    }

    /** _handle_client_socket(socket) up to the handler registrations. */
    constructor(connect: (string, int) -> Option<ProxyObj>, timeout: Option<int>)
      ensures this.connect == connect
      ensures State() == Accepted(timeout)
    {
      this.connect := connect;
      phase := Counting;
      messageNumber := 0;
      proxyObj := None;
      serverStopped := false;
      effects := [];
      if timeout.Some? && timeout.value != 0 {
        effects := effects + [ClientSetTimeout(timeout.value)];
      }
    }

    /** The handler registered for an event: before the hand-over the session's, after it _handleClient's. */
    method OnEvent(e: Event)
      modifies this
      ensures State() == SessionReact(connect, old(State()), e)
    {
      if phase == HandedOver {
        HandedOverEvent(e);
        return;
      }
      match e {
        case ClientData(chunk) =>
          DataHandler(chunk);
          messageNumber := messageNumber + 1;
        case ClientError =>
          effects := effects + [ClientEnd, ClientDestroy];
        case ClientTimeout =>
          effects := effects + [ClientEnd];
        case ClientEndEvent =>
        case RemoteData(_) =>
        case RemoteEndEvent =>
        case RemoteError =>
        case RemoteTimeout =>
      }
    }

    /** dataHandler(chunk), before the counter moves on. */
    method DataHandler(chunk: Bytes)
      requires phase == Counting
      modifies this
      ensures State().(messageNumber := State().messageNumber + 1)
           == DataStep(connect, old(State()), chunk)
    {
      if messageNumber == 0 {
        var reply := NegotiateSocksMethod(chunk);
        if reply.Throw? {
          effects := effects + [ClientEnd, ClientDestroy];
        } else {
          effects := effects + [ClientWrite(reply.value)];
        }
      } else if messageNumber == 1 {
        var setup := SetupProxy(connect, chunk);
        if setup.Throw? {
          effects := effects + [ClientEnd, ClientDestroy];
        } else {
          proxyObj := setup.value.proxyObj;
          effects := effects + [ClientWrite(setup.value.reply)];
        }
      } else if proxyObj.Some? {
        HandOver(chunk);
      }
    }

    /** _handleClient(socket, proxyObj.remoteSocket, proxyObj.server, chunk, true). */
    method HandOver(chunk: Bytes)
      modifies this
      ensures phase == HandedOver && messageNumber == old(messageNumber) && proxyObj == old(proxyObj)
      ensures RelayState(serverStopped, effects) == HandleClient(true, Some(chunk), true, old(effects))
    {
      phase := HandedOver;
      serverStopped := false;
      effects := effects + [RemoteWrite(chunk)];
      CheckStopServer();
    }

    method CheckStopServer()
      modifies this
      ensures phase == old(phase) && messageNumber == old(messageNumber) && proxyObj == old(proxyObj)
      ensures serverStopped
      ensures effects == old(effects) + if old(serverStopped) then [] else [ServerClose]
    {
      if serverStopped {
        return;
      }
      serverStopped := true;
      effects := effects + [ServerClose];
    }

    /** The handlers _handleClient registers, with remoteSocket set. */
    method HandedOverEvent(e: Event)
      modifies this
      ensures phase == old(phase) && messageNumber == old(messageNumber) && proxyObj == old(proxyObj)
      ensures RelayState(serverStopped, effects) == HandleClientReact(true, old(RelayState(serverStopped, effects)), e)
    {
      match e {
        case ClientData(chunk) => effects := effects + [RemoteWrite(chunk)];
        case ClientEndEvent => CheckStopServer(); effects := effects + [RemoteEnd];
        case ClientError => CheckStopServer(); effects := effects + [RemoteDestroy];
        case ClientTimeout =>
        case RemoteData(chunk) => effects := effects + [ClientWrite(chunk)];
        case RemoteEndEvent => CheckStopServer(); effects := effects + [ClientEnd];
        case RemoteError => CheckStopServer(); effects := effects + [ClientDestroy];
        case RemoteTimeout =>
      }
    }
  }
}
