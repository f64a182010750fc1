/**
 * The UDP relay of lib/socks5UDP.js: the SOCKS5 UDP request header of section 7 of
 * RFC 1928 (RSV, FRAG, ATYP, DST.ADDR, DST.PORT, DATA), stripped from datagrams the client
 * sends and added to datagrams the remote end sends back, and the dispatcher that decides
 * for every datagram whether to forward it one way, the other, or not at all.
 *
 * `compareIPs` and `isThisAnIP` are called on lib/utils.js but not defined there; both are
 * parameters of the model.
 */
module Socks5Udp {
  import opened JsBase
  import opened JsBuffer
  import opened JsText
  import opened DottedQuad
  import opened Utf8
  import opened Utils
  import opened Extensions

  const ATYP_IPV4: byte := 0x01
  const ATYP_DOMAIN: byte := 0x03
  const ATYP_IPV6: byte := 0x04

  // ---- the datagram header ----

  /**
   * The length of DST.ADDR as _stripClientHeader reads it: 4, 16, or one length byte plus
   * the name; `None` when byte 4 is missing, where `1 + undefined` is NaN.
   */
  function AddressLength(chunk: Bytes): Option<int> {
    var atyp := ByteAt(chunk, 3);
    if atyp == Some(ATYP_IPV4) then Some(4)
    else if atyp == Some(ATYP_IPV6) then Some(16)
    else match ByteAt(chunk, 4)
      case None => None
      case Some(n) => Some(1 + n as int)
  }

  /** _stripClientHeader(chunk): the data after the header, or all of it when slice gets NaN. */
  function StripClientHeader(chunk: Bytes): (r: Bytes)
    ensures |r| <= |chunk| && r == chunk[|chunk| - |r|..]
    ensures AddressLength(chunk).Some? && 6 + AddressLength(chunk).value <= |chunk|
            ==> |r| == |chunk| - 6 - AddressLength(chunk).value
  {
    match AddressLength(chunk)
    case None => SliceFrom(chunk, 0)
    case Some(n) => SliceFrom(chunk, 4 + n + 2)
  }

  /** The ATYP byte _addClientHeader writes. */
  function AddressType(ip: bool, addr: Bytes): byte {
    if ip then (if |addr| == 4 then ATYP_IPV4 else ATYP_IPV6) else ATYP_DOMAIN
  }

  /** DST.ADDR as written: the address bytes, after a length byte for a name. */
  function AddressField(ip: bool, addr: Bytes): (f: Bytes)
    ensures |f| == if ip then |addr| else |addr| + 1
  {
    if ip then addr else [(|addr| % 256) as byte] + addr
  }

  /**
   * The buffer _addClientHeader fills once the address bytes are known: three zero bytes,
   * ATYP, DST.ADDR, DST.PORT big-endian, then the message. writeUInt16BE throws outside 0..65535.
   */
  function HeaderFor(ip: bool, addr: Bytes, port: int, msg: Bytes): Result<Bytes> {
    var portBytes :- WriteUInt16BE(port);
    Ok([0, 0, 0, AddressType(ip, addr)] + AddressField(ip, addr) + portBytes + msg)
  }

  /**
   * _addClientHeader({address, port}, msg): the address as getIPAsBytes gives it when
   * `isThisAnIP` says it is an IP, otherwise as its UTF-8 bytes.
   */
  function AddClientHeader(isThisAnIP: string -> bool, address: string, port: int, msg: Bytes): (r: Result<Bytes>)
    ensures r.Ok? ==> 0 <= port < 65536 && |r.value| >= 6 + |msg| && r.value[|r.value| - |msg|..] == msg
    ensures !isThisAnIP(address) && 0 <= port < 65536 ==> r.Ok?
  {
    var ip := isThisAnIP(address);
    var addr :- if ip then IPAsBytes(address) else Ok(Encode(address));
    HeaderLayout(ip, addr, port, msg);
    HeaderFor(ip, addr, port, msg)
  }

  /** The address bytes _shouldWeRelay reads; for a name, byte 4 says how many follow it. */
  function RelayAddress(chunk: Bytes): Bytes {
    var atyp := ByteAt(chunk, 3);
    if atyp == Some(ATYP_IPV4) then Slice(chunk, 4, 8)
    else if atyp == Some(ATYP_IPV6) then Slice(chunk, 4, 20)
    else match ByteAt(chunk, 4)
      case None => []  // slice(5, NaN) is empty
      case Some(n) => Slice(chunk, 5, 5 + n as int)
  }

  /**
   * _shouldWeRelay(chunk, rport, rhost): whether the datagram names the destination the
   * client asked for. The port is read right after `4 + |address|`, which for a name is
   * one byte before DST.PORT; an address that is neither a name nor 4 bytes throws.
   */
  function ShouldWeRelay(chunk: Bytes, rport: int, rhost: string): (r: Result<bool>)
    ensures r == Ok(true) ==> -32768 <= rport < 32768 && |chunk| >= 6 + |RelayAddress(chunk)|
  {
    var addr := RelayAddress(chunk);
    var port :- RelayPort(chunk, addr);
    var text :- AddressText(chunk, addr);
    Ok(rport == port && rhost == text)
  }

  /** The port _shouldWeRelay reads: two bytes at 4 + |address|, signed big-endian. */
  function RelayPort(chunk: Bytes, addr: Bytes): Result<int> {
    ReadInt16BE(Slice(chunk, |addr| + 4, |addr| + 6))
  }

  /** The address as text: UTF-8 for a name, getIPFromBytes for anything else. */
  function AddressText(chunk: Bytes, addr: Bytes): Result<string> {
    if ByteAt(chunk, 3) == Some(ATYP_DOMAIN) then Ok(Decode(addr)) else GetIPFromBytes(addr)
  }

  // ---- header properties ----

  /**
   * The layout _addClientHeader produces: zeros, ATYP, DST.ADDR (a name after its length
   * byte), DST.PORT big-endian, then the message, 6 + |DST.ADDR| + |msg| bytes in all; and
   * it throws exactly when the port is outside 0..65535.
   */
  lemma HeaderLayout(ip: bool, addr: Bytes, port: int, msg: Bytes)
    ensures HeaderFor(ip, addr, port, msg).Ok? <==> 0 <= port < 65536
    ensures HeaderFor(ip, addr, port, msg).Throw? ==> HeaderFor(ip, addr, port, msg).error == RangeError
    ensures HeaderFor(ip, addr, port, msg).Ok? ==>
      var h := HeaderFor(ip, addr, port, msg).value;
      var n := |AddressField(ip, addr)|;
      |h| == 6 + n + |msg| && h[..3] == [0, 0, 0]
      && h[3] == (if ip then (if |addr| == 4 then ATYP_IPV4 else ATYP_IPV6) else ATYP_DOMAIN)
      && (ip ==> h[4..4 + n] == addr)
      && (!ip ==> h[4] as int == |addr| % 256 && h[5..4 + n] == addr)
      && BE(h[4 + n..6 + n]) == port && h[6 + n..] == msg
  {
    if 0 <= port < 65536 {
      var h := HeaderFor(ip, addr, port, msg).value;
      var f := AddressField(ip, addr);
      var p := WriteUInt16BE(port).value;
      var n := |f|;
      assert h == [0, 0, 0, AddressType(ip, addr)] + f + p + msg;
      assert h[4..4 + n] == f;
      assert h[4 + n..6 + n] == p;
      assert h[6 + n..] == msg;
      if !ip {
        assert h[5..4 + n] == f[1..];
      }
    }
  }

  /**
   * Stripping the header _addClientHeader added gives the message back, for a 4- or 16-byte
   * IP address and for a name of at most 255 bytes.
   */
  lemma StripHeaderFor(ip: bool, addr: Bytes, port: int, msg: Bytes)
    requires 0 <= port < 65536
    requires if ip then |addr| == 4 || |addr| == 16 else |addr| <= 255
    ensures StripClientHeader(HeaderFor(ip, addr, port, msg).value) == msg
  {
    var h := HeaderFor(ip, addr, port, msg).value;
    var f := AddressField(ip, addr);
    var p := WriteUInt16BE(port).value;
    assert h == [0, 0, 0, AddressType(ip, addr)] + f + p + msg;
    assert h[3] == AddressType(ip, addr);
    if !ip {
      assert h[4] == f[0];
    }
    assert AddressLength(h) == Some(|f|);
    assert h[6 + |f|..] == msg;
  }

  /** _stripClientHeader undoes _addClientHeader for every destination it can encode. */
  lemma AddStripRoundTrip(isThisAnIP: string -> bool, address: string, port: int, msg: Bytes)
    requires 0 <= port < 65536
    requires if isThisAnIP(address) then IPAsBytes(address).Ok? else |Encode(address)| <= 255
    ensures AddClientHeader(isThisAnIP, address, port, msg).Ok?
    ensures StripClientHeader(AddClientHeader(isThisAnIP, address, port, msg).value) == msg
  {
    var ip := isThisAnIP(address);
    var addr := if ip then IPAsBytes(address).value else Encode(address);
    assert ip ==> |addr| == 4 || |addr| == 16;
    HeaderLayout(ip, addr, port, msg);
    StripHeaderFor(ip, addr, port, msg);
  }

  /**
   * For an IPv4 header, _shouldWeRelay holds exactly when bytes 4-7 in dotted decimal are
   * `rhost` and bytes 8-9 read as a signed big-endian 16-bit integer are `rport`.
   */
  lemma RelayIPv4(chunk: Bytes, rport: int, rhost: string)
    requires |chunk| >= 10 && chunk[3] == ATYP_IPV4
    ensures ShouldWeRelay(chunk, rport, rhost)
         == Ok(rport == ReadInt16BE(chunk[8..10]).value
               && rhost == Quad(chunk[4] as nat, chunk[5] as nat, chunk[6] as nat, chunk[7] as nat))
  {
    var addr := RelayAddress(chunk);
    assert addr == [chunk[4], chunk[5], chunk[6], chunk[7]] by {
      assert addr == chunk[4..8];
    }
    assert RelayPort(chunk, addr) == ReadInt16BE(chunk[8..10]);
    BytesQuad(chunk[4], chunk[5], chunk[6], chunk[7]);
    assert AddressText(chunk, addr) == GetIPFromBytes(addr);
  }

  /**
   * For a name header laid out as RFC 1928 has it, _shouldWeRelay compares `rport` with the
   * last byte of the name and the first byte of DST.PORT, not with DST.PORT.
   */
  lemma RelayDomainPortEarly(name: Bytes, port: Bytes, msg: Bytes, rport: int, rhost: string)
    requires 0 < |name| <= 255 && |port| == 2
    ensures ShouldWeRelay([0, 0, 0, ATYP_DOMAIN, |name| as byte] + name + port + msg, rport, rhost)
         == Ok(rport == ReadInt16BE([name[|name| - 1], port[0]]).value && rhost == Decode(name))
  {
    var chunk := [0, 0, 0, ATYP_DOMAIN, |name| as byte] + name + port + msg;
    DomainAddress(chunk, name, port, msg);
    assert AddressText(chunk, name) == Ok(Decode(name));
  }

  lemma DomainAddress(chunk: Bytes, name: Bytes, port: Bytes, msg: Bytes)
    requires 0 < |name| <= 255 && |port| == 2
    requires chunk == [0, 0, 0, ATYP_DOMAIN, |name| as byte] + name + port + msg
    ensures RelayAddress(chunk) == name && ByteAt(chunk, 3) == Some(ATYP_DOMAIN)
    ensures RelayPort(chunk, name) == ReadInt16BE([name[|name| - 1], port[0]])
  {
    assert chunk[4] as int == |name|;
    assert chunk[5..5 + |name|] == name;
    assert chunk[|name| + 4..|name| + 6] == [name[|name| - 1], port[0]];
  }

  /**
   * An IPv4 header made by _addClientHeader passes _shouldWeRelay for its own address and
   * port, when the port also fits a signed 16-bit integer.
   */
  lemma RelayOwnHeader(a: byte, b: byte, c: byte, d: byte, port: int, msg: Bytes)
    requires 0 <= port < 32768
    ensures ShouldWeRelay(HeaderFor(true, [a, b, c, d], port, msg).value, port,
                          Quad(a as nat, b as nat, c as nat, d as nat)) == Ok(true)
  {
    var h := HeaderFor(true, [a, b, c, d], port, msg).value;
    HeaderLayout(true, [a, b, c, d], port, msg);
    assert h[4..8] == [a, b, c, d];
    assert h[4] == a && h[5] == b && h[6] == c && h[7] == d;
    RelayIPv4(h, port, Quad(a as nat, b as nat, c as nat, d as nat));
  }

  // ---- the dispatcher ----

  /** A datagram's sender as dgram's `rinfo` gives it. */
  datatype Peer = Peer(address: string, port: int)

  /** One server.send(data, port, address). */
  datatype Datagram = Datagram(data: Bytes, port: Port, address: string)

  /**
   * What handleSocksClient fixes when it starts: the TCP client's address, the destination
   * the client asked for, that destination after the pre_connect stages (`rconInfo`), and
   * the two predicates lib/utils.js does not define.
   */
  datatype Relay = Relay(
    tcpClientAddress: string,
    rhost: string,
    rport: int,
    rcon: HostPort,
    compareIPs: (string, string) -> bool,
    isThisAnIP: string -> bool)

  /** The remembered client after a datagram, what was sent, and what the handler threw. */
  datatype StepResult = StepResult(client: Option<Peer>, out: seq<Datagram>, error: Option<JsError>)

  /** The "message" handler on one datagram, given the `udpClient` it finds. */
  function Step(cfg: Relay, client: Option<Peer>, msg: Bytes, rinfo: Peer): (r: StepResult)
    ensures |r.out| <= 1
    ensures r.client == client || (client.None? && r.client == Some(rinfo))
    ensures client.None? && r.out != [] ==> r.client == Some(rinfo)
    ensures r.error.Some? ==> r.out == [] && r.client == client
  {
    var check := if cfg.compareIPs(cfg.tcpClientAddress, rinfo.address) then ShouldWeRelay(msg, cfg.rport, cfg.rhost) else Ok(false);
    if check.Throw? then StepResult(client, [], Some(check.error))
    else if check.value then
      var remembered := if client.None? then Some(rinfo) else client;
      StepResult(remembered, [Datagram(StripClientHeader(msg), cfg.rcon.port, cfg.rcon.host)], None)
    else if cfg.compareIPs(cfg.rcon.host, rinfo.address) && client.Some? then
      var headered := AddClientHeader(cfg.isThisAnIP, cfg.rhost, cfg.rport, msg);
      if headered.Throw? then StepResult(client, [], Some(headered.error))
      else StepResult(client, [Datagram(headered.value, PortNum(client.value.port), client.value.address)], None)
    else StepResult(client, [], None)
  }

  /** One datagram as it arrives. */
  datatype Incoming = Incoming(msg: Bytes, rinfo: Peer)

  /** The handler over a sequence of datagrams; an exception it throws ends the process. */
  function StepAll(cfg: Relay, client: Option<Peer>, ins: seq<Incoming>): (r: StepResult)
    decreases |ins|
    ensures |r.out| <= |ins|
  {
    if ins == [] then StepResult(client, [], None)
    else
      var first := Step(cfg, client, ins[0].msg, ins[0].rinfo);
      if first.error.Some? then first
      else
        var rest := StepAll(cfg, first.client, ins[1..]);
        StepResult(rest.client, first.out + rest.out, rest.error)
  }

  /**
   * A datagram from the TCP client's address that names the requested destination is
   * stripped and sent to `rconInfo`, whether or not it also comes from the remote address,
   * and its sender becomes `udpClient` if none was remembered.
   */
  lemma ClientDatagram(cfg: Relay, client: Option<Peer>, msg: Bytes, rinfo: Peer)
    requires cfg.compareIPs(cfg.tcpClientAddress, rinfo.address)
    requires ShouldWeRelay(msg, cfg.rport, cfg.rhost) == Ok(true)
    ensures Step(cfg, client, msg, rinfo)
         == StepResult(if client.None? then Some(rinfo) else client,
                       [Datagram(StripClientHeader(msg), cfg.rcon.port, cfg.rcon.host)], None)
  {
  }

  /**
   * A datagram from the remote address that does not pass the client test (it is not from
   * the TCP client's address, or `_shouldWeRelay` answers false) is headered with the
   * original destination and sent to `udpClient`, and only once `udpClient` is known.
   */
  lemma RemoteDatagram(cfg: Relay, client: Option<Peer>, msg: Bytes, rinfo: Peer)
    requires !cfg.compareIPs(cfg.tcpClientAddress, rinfo.address) || ShouldWeRelay(msg, cfg.rport, cfg.rhost) == Ok(false)
    requires cfg.compareIPs(cfg.rcon.host, rinfo.address)
    requires 0 <= cfg.rport < 65536
    requires if cfg.isThisAnIP(cfg.rhost) then IPAsBytes(cfg.rhost).Ok? else |Encode(cfg.rhost)| <= 255
    ensures client.None? ==> Step(cfg, client, msg, rinfo) == StepResult(None, [], None)
    ensures client.Some? ==>
      var r := Step(cfg, client, msg, rinfo);
      r.client == client && r.error == None && |r.out| == 1
      && r.out[0].port == PortNum(client.value.port) && r.out[0].address == client.value.address
      && AddClientHeader(cfg.isThisAnIP, cfg.rhost, cfg.rport, msg).Ok?
      && r.out[0].data == AddClientHeader(cfg.isThisAnIP, cfg.rhost, cfg.rport, msg).value
      && StripClientHeader(r.out[0].data) == msg
  {
    AddStripRoundTrip(cfg.isThisAnIP, cfg.rhost, cfg.rport, msg);
  }

  /** A datagram from neither the client's nor the remote address is dropped. */
  lemma SpoofedDropped(cfg: Relay, client: Option<Peer>, msg: Bytes, rinfo: Peer)
    requires !cfg.compareIPs(cfg.tcpClientAddress, rinfo.address) && !cfg.compareIPs(cfg.rcon.host, rinfo.address)
    ensures Step(cfg, client, msg, rinfo) == StepResult(client, [], None)
  {
  }

  /** Once `udpClient` is set no datagram changes it. */
  lemma {:induction false} ClientFixed(cfg: Relay, client: Option<Peer>, ins: seq<Incoming>)
    requires client.Some?
    decreases |ins|
    ensures StepAll(cfg, client, ins).client == client
  {
    if ins != [] {
      ClientFixed(cfg, Step(cfg, client, ins[0].msg, ins[0].rinfo).client, ins[1..]);
    }
  }

  /**
   * Starting with no `udpClient`, a run that leaves it unset has sent nothing: the first
   * datagram relayed for the client sets it. Once set, it is the sender of one of the
   * datagrams received.
   */
  lemma {:induction false} FirstRelayed(cfg: Relay, ins: seq<Incoming>)
    decreases |ins|
    ensures var r := StepAll(cfg, None, ins);
      r.client.None? ==> r.out == []
    ensures var r := StepAll(cfg, None, ins);
      r.client.Some? ==> exists i :: 0 <= i < |ins| && r.client == Some(ins[i].rinfo)
  {
    if ins != [] {
      var first := Step(cfg, None, ins[0].msg, ins[0].rinfo);
      if first.error.None? {
        if first.client.None? {
          FirstRelayed(cfg, ins[1..]);
          var rest := StepAll(cfg, None, ins[1..]);
          if rest.client.Some? {
            var i :| 0 <= i < |ins[1..]| && rest.client == Some(ins[1..][i].rinfo);
            assert ins[1..][i] == ins[i + 1];
          }
        } else {
          ClientFixed(cfg, first.client, ins[1..]);
        }
      }
    }
  }

  // ---- the relay's life: datagrams until the control connection closes ----

  /**
   * What reaches handleSocksClient's handlers: a datagram, or the "close" of the TCP control
   * connection. A socket emits "close" once, so the events of one connection hold at most one
   * ControlClosed (see SingleServerClose); the run itself accepts any sequence.
   */
  datatype UdpEvent = Message(m: Incoming) | ControlClosed

  /** The remembered client, what was sent, how often server.close() was called, and what was thrown. */
  datatype RelayRun = RelayRun(client: Option<Peer>, out: seq<Datagram>, serverCloses: nat, error: Option<JsError>)

  /**
   * The relay over a sequence of events. Every "close" of the TCP connection that asked
   * for the relay calls server.close(), as section 6 of RFC 1928 requires; a closed UDP
   * server receives no further datagrams.
   */
  function RunAll(cfg: Relay, client: Option<Peer>, closes: nat, evs: seq<UdpEvent>): (r: RelayRun)
    decreases |evs|
    ensures |r.out| <= |evs| && r.serverCloses >= closes
    ensures client.Some? ==> r.client == client
  {
    if evs == [] then RelayRun(client, [], closes, None)
    else match evs[0]
      case ControlClosed => RunAll(cfg, client, closes + 1, evs[1..])
      case Message(m) =>
        if closes > 0 then RunAll(cfg, client, closes, evs[1..])
        else
          var first := Step(cfg, client, m.msg, m.rinfo);
          if first.error.Some? then RelayRun(first.client, first.out, closes, first.error)
          else
            var rest := RunAll(cfg, first.client, closes, evs[1..]);
            RelayRun(rest.client, first.out + rest.out, rest.serverCloses, rest.error)
  }

  /** The number of times the control connection reports "close". */
  function CloseCount(evs: seq<UdpEvent>): (n: nat)
    ensures n <= |evs|
    ensures n == 0 <==> ControlClosed !in evs
  {
    if evs == [] then 0 else (if evs[0] == ControlClosed then 1 else 0) + CloseCount(evs[1..])
  }

  /** Once the UDP server is closed, nothing is sent and every further "close" closes it again. */
  lemma {:induction false} ClosedSendsNothing(cfg: Relay, client: Option<Peer>, closes: nat, evs: seq<UdpEvent>)
    requires closes > 0
    ensures RunAll(cfg, client, closes, evs) == RelayRun(client, [], closes + CloseCount(evs), None)
    decreases |evs|
  {
    if evs != [] {
      match evs[0]
      case ControlClosed => ClosedSendsNothing(cfg, client, closes + 1, evs[1..]);
      case Message(_) => ClosedSendsNothing(cfg, client, closes, evs[1..]);
    }
  }

  /**
   * The UDP server is closed exactly when the control connection closed, once for each
   * "close", unless the message handler threw first.
   */
  lemma {:induction false} ServerClosedIffControlClosed(cfg: Relay, client: Option<Peer>, evs: seq<UdpEvent>)
    ensures RunAll(cfg, client, 0, evs).error.None? ==> RunAll(cfg, client, 0, evs).serverCloses == CloseCount(evs)
    ensures RunAll(cfg, client, 0, evs).error.None? ==> (RunAll(cfg, client, 0, evs).serverCloses > 0 <==> ControlClosed in evs)
    decreases |evs|
  {
    if evs != [] {
      match evs[0]
      case ControlClosed => ClosedSendsNothing(cfg, client, 1, evs[1..]);
      case Message(m) =>
        var first := Step(cfg, client, m.msg, m.rinfo);
        if first.error.None? {
          ServerClosedIffControlClosed(cfg, first.client, evs[1..]);
        }
    }
  }

  /**
   * With the single "close" a socket emits, server.close() is called exactly once when the
   * control connection closed and never otherwise, unless the message handler threw first.
   */
  lemma SingleServerClose(cfg: Relay, client: Option<Peer>, evs: seq<UdpEvent>)
    requires CloseCount(evs) <= 1
    ensures var r := RunAll(cfg, client, 0, evs);
      r.error.None? ==> (r.serverCloses == 1 <==> ControlClosed in evs) && (r.serverCloses == 0 <==> ControlClosed !in evs)
  {
    ServerClosedIffControlClosed(cfg, client, evs);
  }

  /**
   * Nothing is relayed after the control connection closes: the datagrams sent are those
   * sent before its first "close", whatever follows.
   */
  lemma {:induction false} NothingAfterClose(cfg: Relay, client: Option<Peer>, pre: seq<UdpEvent>, post: seq<UdpEvent>)
    requires ControlClosed !in pre
    ensures RunAll(cfg, client, 0, pre + [ControlClosed] + post).out == RunAll(cfg, client, 0, pre).out
    decreases |pre|
  {
    var evs := pre + [ControlClosed] + post;
    if pre == [] {
      assert evs[1..] == post;
      ClosedSendsNothing(cfg, client, 1, post);
    } else {
      assert evs[0] == pre[0] && evs[1..] == pre[1..] + [ControlClosed] + post;
      var m := pre[0].m;
      var first := Step(cfg, client, m.msg, m.rinfo);
      if first.error.None? {
        NothingAfterClose(cfg, first.client, pre[1..], post);
      }
    }
  }

  /** The relay of one UDP ASSOCIATE, with the sends it has made. */
  class UdpRelay {
    const cfg: Relay
    var udpClient: Option<Peer>
    var sent: seq<Datagram>
    var serverCloses: nat

    /** handleSocksClient's set-up: `rconInfo` is preConnect(rhost, rport) through the stages. */
    constructor(tcpClientAddress: string, rhost: string, rport: int, preConnects: seq<ConnectStage>,
                compareIPs: (string, string) -> bool, isThisAnIP: string -> bool)
      ensures cfg.tcpClientAddress == tcpClientAddress && cfg.rhost == rhost && cfg.rport == rport
      ensures cfg.rcon == ConnectFold(preConnects, HostPort(rhost, PortNum(rport)))
      ensures cfg.compareIPs == compareIPs && cfg.isThisAnIP == isThisAnIP
      ensures udpClient == None && sent == [] && serverCloses == 0
    {
      var rconInfo := ConnectFold(preConnects, HostPort(rhost, PortNum(rport)));
      cfg := Relay(tcpClientAddress, rhost, rport, rconInfo, compareIPs, isThisAnIP);
      udpClient := None;
      sent := [];
      serverCloses := 0;
    }

    /** The control connection's "close" handler: server.close(). A socket runs it at most once. */
    method OnControlClose()
      modifies this
      ensures serverCloses == old(serverCloses) + 1
      ensures udpClient == old(udpClient) && sent == old(sent)
    {
      serverCloses := serverCloses + 1;
    }

    /** The "message" handler; a closed server receives nothing. */
    method OnMessage(msg: Bytes, rinfo: Peer) returns (error: Option<JsError>)
      modifies this
      ensures old(serverCloses) > 0 ==> udpClient == old(udpClient) && sent == old(sent) && error == None
      ensures old(serverCloses) == 0 ==> var r := Step(cfg, old(udpClient), msg, rinfo);
        udpClient == r.client && sent == old(sent) + r.out && error == r.error
      ensures serverCloses == old(serverCloses)
    {
      if serverCloses > 0 {
        return None;
      }
      var relay := false;
      if cfg.compareIPs(cfg.tcpClientAddress, rinfo.address) {
        var check := ShouldWeRelay(msg, cfg.rport, cfg.rhost);
        if check.Throw? {
          return Some(check.error);
        }
        relay := check.value;
      }
      if relay {
        if udpClient.None? {
          udpClient := Some(rinfo);
        }
        sent := sent + [Datagram(StripClientHeader(msg), cfg.rcon.port, cfg.rcon.host)];
      } else if cfg.compareIPs(cfg.rcon.host, rinfo.address) && udpClient.Some? {
        var headered := AddClientHeader(cfg.isThisAnIP, cfg.rhost, cfg.rport, msg);
        if headered.Throw? {
          return Some(headered.error);
        }
        sent := sent + [Datagram(headered.value, PortNum(udpClient.value.port), udpClient.value.address)];
      }
      return None;
    }
  }
}
