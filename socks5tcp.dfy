/**
 * The TCP relay of lib/socks5TCP.js: the optional per-client listener, the options the
 * remote connection is opened with, and handleSocksClient, which wires a client socket to
 * an already connected remote socket. Socket calls become effects appended to a trace;
 * events arrive one at a time and each handler runs to completion.
 *
 * Here a preIn stage is a function of the chunk alone: state a stage keeps on the socket
 * between "data" events, such as the frame reassembly of the AES extension (modelled in
 * Aes.PreIn), is abstracted away in this file.
 */
module Socks5Tcp {
  import opened JsBase
  import opened Extensions

  /** The configuration values this file reads; a timeout is `None` when not configured. */
  datatype TcpConf = TcpConf(
    noNewTCPServerPerClient: bool,
    remoteTimeout: Option<int>,
    clientTimeout: Option<int>)

  /** A listening server created for one client. */
  datatype Listener = Listener(id: nat)

  /** `conf.xTimeout && conf.xTimeout != -1`: configured, not 0 (falsy) and not -1. */
  predicate TimeoutApplies(t: Option<int>) {
    t.Some? && t.value != 0 && t.value != -1
  }

  /** _createTCPListener: no listener when the main proxy port is to be reused. */
  function CreateTCPListener(conf: TcpConf, id: nat): (server: Option<Listener>)
    ensures server.None? <==> conf.noNewTCPServerPerClient
  {
    if conf.noNewTCPServerPerClient then None else Some(Listener(id))
  }

  /** The object net.connect gets: the host and port after the pre_connect stages, and a timeout. */
  datatype ConnectOptions = ConnectOptions(target: HostPort, timeout: Option<int>)

  /** remoteConnect's conObj for the requested host and port. */
  function RemoteConnectOptions(conf: TcpConf, stages: seq<ConnectStage>, host: string, port: int): (r: ConnectOptions)
    ensures r.target == ConnectFold(stages, HostPort(host, PortNum(port)))
    ensures r.timeout.Some? <==> TimeoutApplies(conf.remoteTimeout)
    ensures r.timeout.Some? ==> r.timeout == conf.remoteTimeout
  {
    var conObj := ConnectFold(stages, HostPort(host, PortNum(port)));
    ConnectOptions(conObj, if TimeoutApplies(conf.remoteTimeout) then conf.remoteTimeout else None)
  }

  // ---- handleSocksClient ----

  /** What the relay does to the outside world. */
  datatype Effect =
    | ClientSetTimeout(ms: int)
    | ServerClose
    | RemoteWrite(data: Bytes)
    | RemoteEnd
    | RemoteDestroy
    | ClientWrite(data: Bytes)
    | ClientEnd
    | ClientDestroy

  /** The socket events the relay handles. */
  datatype Event =
    | ClientData(chunk: Bytes)
    | ClientEndEvent
    | ClientError
    | ClientTimeout
    | RemoteData(chunk: Bytes)
    | RemoteEndEvent
    | RemoteError
    | RemoteTimeout

  /**
   * What handleSocksClient is given: whether there is a server to close (it may be null),
   * the remote socket (never null: line 80 dereferences it), the stages, and the client timeout.
   */
  datatype Setup = Setup(
    hasServer: bool,
    remote: Endpoint,
    preOuts: seq<OutStage>,
    preIns: seq<InStage>,
    clientTimeout: Option<int>)

  /** The serverStopped flag and the effects so far. */
  datatype RelayState = RelayState(stopped: bool, effects: seq<Effect>)

  /** checkStopServer: closes the server the first time only, and never a null one. */
  function StopServer(cfg: Setup, s: RelayState): RelayState {
    if s.stopped || !cfg.hasServer then s else RelayState(true, s.effects + [ServerClose])
  }

  function ClientWrites(chunks: seq<Bytes>): (r: seq<Effect>)
    ensures |r| == |chunks| && forall i :: 0 <= i < |r| ==> r[i] == ClientWrite(chunks[i])
  {
    if chunks == [] then [] else [ClientWrite(chunks[0])] + ClientWrites(chunks[1..])
  }

  /** handleClientData: the chunk after the pre_out stages, written to the remote. */
  function ClientDataEffects(cfg: Setup, chunk: Bytes): seq<Effect> {
    [RemoteWrite(OutFold(cfg.preOuts, cfg.remote, chunk))]
  }

  /** handleRemoteData: every chunk the pre_in chain hands its callback, written to the client. */
  function RemoteDataEffects(cfg: Setup, chunk: Bytes): seq<Effect> {
    ClientWrites(Run(cfg.preIns, cfg.remote, chunk).delivered)
  }

  /** The handler registered for one event. */
  function React(cfg: Setup, s: RelayState, e: Event): (r: RelayState)
    ensures s.effects <= r.effects
    ensures r.stopped <==> s.stopped || (cfg.hasServer && !e.ClientData? && !e.RemoteData?)
  {
    match e
    case ClientData(chunk) => RelayState(s.stopped, s.effects + ClientDataEffects(cfg, chunk))
    case ClientEndEvent => var t := StopServer(cfg, s); RelayState(t.stopped, t.effects + [RemoteEnd])
    case ClientError => var t := StopServer(cfg, s); RelayState(t.stopped, t.effects + [RemoteDestroy])
    case ClientTimeout => var t := StopServer(cfg, s); RelayState(t.stopped, t.effects + [RemoteDestroy])
    case RemoteData(chunk) => RelayState(s.stopped, s.effects + RemoteDataEffects(cfg, chunk))
    case RemoteEndEvent => var t := StopServer(cfg, s); RelayState(t.stopped, t.effects + [ClientEnd])
    case RemoteError => var t := StopServer(cfg, s); RelayState(t.stopped, t.effects + [ClientDestroy])
    case RemoteTimeout => var t := StopServer(cfg, s); RelayState(t.stopped, t.effects + [ClientDestroy])
  }

  /** The handlers over a sequence of events. */
  function ReactAll(cfg: Setup, s: RelayState, events: seq<Event>): RelayState
    decreases |events|
  {
    if events == [] then s else ReactAll(cfg, React(cfg, s, events[0]), events[1..])
  }

  /** What handleSocksClient does before any event: the timeout, then the replays, then the stop. */
  function HookUp(cfg: Setup, clientData: Option<Bytes>, remoteData: Option<Bytes>, closeServer: bool): (r: RelayState)
    ensures r.stopped <==> closeServer && cfg.hasServer
    ensures TimeoutApplies(cfg.clientTimeout) ==> |r.effects| > 0 && r.effects[0] == ClientSetTimeout(cfg.clientTimeout.value)
  {
    var timeout := if TimeoutApplies(cfg.clientTimeout) then [ClientSetTimeout(cfg.clientTimeout.value)] else [];
    var s0 := RelayState(false, timeout);
    var s1 := if clientData.Some? then React(cfg, s0, ClientData(clientData.value)) else s0;
    var s2 := if remoteData.Some? then React(cfg, s1, RemoteData(remoteData.value)) else s1;
    if closeServer then StopServer(cfg, s2) else s2
  }

  // ---- properties ----

  /** How many times the server is closed in a trace. */
  function Closes(effects: seq<Effect>): (n: nat)
    ensures n <= |effects|
  {
    if effects == [] then 0
    else (if effects[0] == ServerClose then 1 else 0) + Closes(effects[1..])
  }

  lemma {:induction false} ClosesAppend(a: seq<Effect>, b: seq<Effect>)
    decreases |a|
    ensures Closes(a + b) == Closes(a) + Closes(b)
  {
    if a == [] {
      assert a + b == b;
    } else {
      assert (a + b)[1..] == a[1..] + b;
      ClosesAppend(a[1..], b);
    }
  }

  lemma {:induction false} ClientWritesNoClose(chunks: seq<Bytes>)
    ensures Closes(ClientWrites(chunks)) == 0
  {
    if chunks != [] {
      ClientWritesNoClose(chunks[1..]);
    }
  }

  /**
   * The trace closes the server once when the flag goes from clear to set and never
   * otherwise; the flag is only ever set when there is a server.
   */
  predicate ClosedOnce(cfg: Setup, before: RelayState, after: RelayState) {
    (before.stopped ==> after.stopped)
    && (after.stopped ==> cfg.hasServer)
    && Closes(after.effects) == Closes(before.effects) + (if after.stopped && !before.stopped then 1 else 0)
  }

  lemma ReactClosedOnce(cfg: Setup, s: RelayState, e: Event)
    requires s.stopped ==> cfg.hasServer
    ensures ClosedOnce(cfg, s, React(cfg, s, e))
  {
    var t := StopServer(cfg, s);
    ClosesAppend(s.effects, [ServerClose]);
    match e
    case ClientData(chunk) =>
      ClosesAppend(s.effects, ClientDataEffects(cfg, chunk));
    case RemoteData(chunk) =>
      ClosesAppend(s.effects, RemoteDataEffects(cfg, chunk));
      ClientWritesNoClose(Run(cfg.preIns, cfg.remote, chunk).delivered);
    case ClientEndEvent => ClosesAppend(t.effects, [RemoteEnd]);
    case ClientError => ClosesAppend(t.effects, [RemoteDestroy]);
    case ClientTimeout => ClosesAppend(t.effects, [RemoteDestroy]);
    case RemoteEndEvent => ClosesAppend(t.effects, [ClientEnd]);
    case RemoteError => ClosesAppend(t.effects, [ClientDestroy]);
    case RemoteTimeout => ClosesAppend(t.effects, [ClientDestroy]);
  }

  lemma {:induction false} ReactAllClosedOnce(cfg: Setup, s: RelayState, events: seq<Event>)
    requires s.stopped ==> cfg.hasServer
    decreases |events|
    ensures ClosedOnce(cfg, s, ReactAll(cfg, s, events))
  {
    if events != [] {
      ReactClosedOnce(cfg, s, events[0]);
      ReactAllClosedOnce(cfg, React(cfg, s, events[0]), events[1..]);
    }
  }

  /**
   * checkStopServer closes the server at most once over the whole life of the relay,
   * whatever the replays and events, and never when the server is null.
   */
  lemma CloseAtMostOnce(cfg: Setup, clientData: Option<Bytes>, remoteData: Option<Bytes>, closeServer: bool, events: seq<Event>)
    ensures Closes(ReactAll(cfg, HookUp(cfg, clientData, remoteData, closeServer), events).effects) <= 1
    ensures !cfg.hasServer ==> Closes(ReactAll(cfg, HookUp(cfg, clientData, remoteData, closeServer), events).effects) == 0
  {
    var timeout := if TimeoutApplies(cfg.clientTimeout) then [ClientSetTimeout(cfg.clientTimeout.value)] else [];
    var s0 := RelayState(false, timeout);
    assert Closes(timeout) == 0;
    var s1 := if clientData.Some? then React(cfg, s0, ClientData(clientData.value)) else s0;
    if clientData.Some? {
      ReactClosedOnce(cfg, s0, ClientData(clientData.value));
    }
    var s2 := if remoteData.Some? then React(cfg, s1, RemoteData(remoteData.value)) else s1;
    if remoteData.Some? {
      ReactClosedOnce(cfg, s1, RemoteData(remoteData.value));
    }
    var s3 := HookUp(cfg, clientData, remoteData, closeServer);
    ClosesAppend(s2.effects, [ServerClose]);
    ReactAllClosedOnce(cfg, s3, events);
  }

  /** The remote writes in a trace. */
  function RemoteWrites(effects: seq<Effect>): seq<Bytes> {
    if effects == [] then []
    else (if effects[0].RemoteWrite? then [effects[0].data] else []) + RemoteWrites(effects[1..])
  }

  /** The client chunks among the events, each after the pre_out stages. */
  function ClientChunksOut(cfg: Setup, events: seq<Event>): seq<Bytes> {
    if events == [] then []
    else (if events[0].ClientData? then [OutFold(cfg.preOuts, cfg.remote, events[0].chunk)] else [])
         + ClientChunksOut(cfg, events[1..])
  }

  lemma {:induction false} RemoteWritesAppend(a: seq<Effect>, b: seq<Effect>)
    decreases |a|
    ensures RemoteWrites(a + b) == RemoteWrites(a) + RemoteWrites(b)
  {
    if a == [] {
      assert a + b == b;
    } else {
      assert (a + b)[1..] == a[1..] + b;
      RemoteWritesAppend(a[1..], b);
    }
  }

  lemma {:induction false} ClientWritesNoRemote(chunks: seq<Bytes>)
    ensures RemoteWrites(ClientWrites(chunks)) == []
  {
    if chunks != [] {
      ClientWritesNoRemote(chunks[1..]);
    }
  }

  lemma ReactRemoteWrites(cfg: Setup, s: RelayState, e: Event)
    ensures RemoteWrites(React(cfg, s, e).effects)
         == RemoteWrites(s.effects) + (if e.ClientData? then [OutFold(cfg.preOuts, cfg.remote, e.chunk)] else [])
  {
    var t := StopServer(cfg, s);
    RemoteWritesAppend(s.effects, [ServerClose]);
    match e
    case ClientData(chunk) => RemoteWritesAppend(s.effects, ClientDataEffects(cfg, chunk));
    case RemoteData(chunk) =>
      RemoteWritesAppend(s.effects, RemoteDataEffects(cfg, chunk));
      ClientWritesNoRemote(Run(cfg.preIns, cfg.remote, chunk).delivered);
    case ClientEndEvent => RemoteWritesAppend(t.effects, [RemoteEnd]);
    case ClientError => RemoteWritesAppend(t.effects, [RemoteDestroy]);
    case ClientTimeout => RemoteWritesAppend(t.effects, [RemoteDestroy]);
    case RemoteEndEvent => RemoteWritesAppend(t.effects, [ClientEnd]);
    case RemoteError => RemoteWritesAppend(t.effects, [ClientDestroy]);
    case RemoteTimeout => RemoteWritesAppend(t.effects, [ClientDestroy]);
  }

  /** Every client chunk reaches the remote once, after the pre_out stages, in arrival order. */
  lemma {:induction false} ClientChunksInOrder(cfg: Setup, s: RelayState, events: seq<Event>)
    decreases |events|
    ensures RemoteWrites(ReactAll(cfg, s, events).effects) == RemoteWrites(s.effects) + ClientChunksOut(cfg, events)
  {
    if events != [] {
      ReactRemoteWrites(cfg, s, events[0]);
      ClientChunksInOrder(cfg, React(cfg, s, events[0]), events[1..]);
    }
  }

  /**
   * Teardown: an end on either side stops the server and ends the other side; an error or
   * a timeout stops the server and destroys the other side. Nothing else is done.
   */
  lemma Teardown(cfg: Setup, s: RelayState)
    ensures React(cfg, s, ClientEndEvent).effects == StopServer(cfg, s).effects + [RemoteEnd]
    ensures React(cfg, s, ClientError).effects == StopServer(cfg, s).effects + [RemoteDestroy]
    ensures React(cfg, s, ClientTimeout).effects == StopServer(cfg, s).effects + [RemoteDestroy]
    ensures React(cfg, s, RemoteEndEvent).effects == StopServer(cfg, s).effects + [ClientEnd]
    ensures React(cfg, s, RemoteError).effects == StopServer(cfg, s).effects + [ClientDestroy]
    ensures React(cfg, s, RemoteTimeout).effects == StopServer(cfg, s).effects + [ClientDestroy]
    ensures StopServer(cfg, s).effects == s.effects + (if !s.stopped && cfg.hasServer then [ServerClose] else [])
  {
  }

  /**
   * At hook-up the client's early data goes to the remote first, then the remote's early
   * data through the pre_in chain to the client, then the server is stopped.
   */
  lemma HookUpOrder(cfg: Setup, clientData: Bytes, remoteData: Bytes)
    requires !TimeoutApplies(cfg.clientTimeout) && cfg.hasServer
    ensures HookUp(cfg, Some(clientData), Some(remoteData), true).effects
         == [RemoteWrite(OutFold(cfg.preOuts, cfg.remote, clientData))]
            + ClientWrites(Run(cfg.preIns, cfg.remote, remoteData).delivered)
            + [ServerClose]
  {
  }

  /** The client timeout is set first, and only when it is configured, not 0 and not -1. */
  lemma HookUpTimeout(cfg: Setup, clientData: Option<Bytes>, remoteData: Option<Bytes>, closeServer: bool)
    ensures var effects := HookUp(cfg, clientData, remoteData, closeServer).effects;
      (TimeoutApplies(cfg.clientTimeout) <==> |effects| > 0 && effects[0].ClientSetTimeout?)
      && (TimeoutApplies(cfg.clientTimeout) ==> effects[0] == ClientSetTimeout(cfg.clientTimeout.value))
  {
    var timeout := if TimeoutApplies(cfg.clientTimeout) then [ClientSetTimeout(cfg.clientTimeout.value)] else [];
    var s0 := RelayState(false, timeout);
    var s1 := if clientData.Some? then React(cfg, s0, ClientData(clientData.value)) else s0;
    var s2 := if remoteData.Some? then React(cfg, s1, RemoteData(remoteData.value)) else s1;
    var s3 := HookUp(cfg, clientData, remoteData, closeServer);
    if TimeoutApplies(cfg.clientTimeout) {
      if clientData.Some? {
        HeadKept(s0.effects, ClientDataEffects(cfg, clientData.value));
      }
      if remoteData.Some? {
        HeadKept(s1.effects, RemoteDataEffects(cfg, remoteData.value));
      }
      if closeServer && !s2.stopped && cfg.hasServer {
        HeadKept(s2.effects, [ServerClose]);
      }
    } else if |s3.effects| > 0 {
      NoTimeoutEffect(cfg, clientData, remoteData, s1, s2, s3);
    }
  }

  lemma HeadKept(a: seq<Effect>, b: seq<Effect>)
    requires |a| > 0
    ensures |a + b| > 0 && (a + b)[0] == a[0]
  {
  }

  lemma NoTimeoutEffect(cfg: Setup, clientData: Option<Bytes>, remoteData: Option<Bytes>, s1: RelayState, s2: RelayState, s3: RelayState)
    requires !TimeoutApplies(cfg.clientTimeout)
    requires s1 == if clientData.Some? then React(cfg, RelayState(false, []), ClientData(clientData.value)) else RelayState(false, [])
    requires s2 == if remoteData.Some? then React(cfg, s1, RemoteData(remoteData.value)) else s1
    requires s3 == s2 || s3 == StopServer(cfg, s2)
    requires |s3.effects| > 0
    ensures !s3.effects[0].ClientSetTimeout?
  {
    if clientData.Some? {
      assert s3.effects[0] == s1.effects[0];
    } else if remoteData.Some? {
      var d := Run(cfg.preIns, cfg.remote, remoteData.value).delivered;
      if d != [] {
        assert s3.effects[0] == ClientWrite(d[0]);
      } else {
        assert s2.effects == [];
      }
    }
  }

  /** The relay for one client connection. */
  class TcpRelay {
    const cfg: Setup
    var serverStopped: bool
    var effects: seq<Effect>

    /** handleSocksClient(client, remoteSocket, server, clientData, remoteData, closeServer). */
    constructor(cfg: Setup, clientData: Option<Bytes>, remoteData: Option<Bytes>, closeServer: bool)
      ensures this.cfg == cfg
      ensures RelayState(serverStopped, effects) == HookUp(cfg, clientData, remoteData, closeServer)
    {
      this.cfg := cfg;
      serverStopped := false;
      effects := if TimeoutApplies(cfg.clientTimeout) then [ClientSetTimeout(cfg.clientTimeout.value)] else [];
      new;
      if clientData.Some? {
        HandleClientData(clientData.value);
      }
      if remoteData.Some? {
        HandleRemoteData(remoteData.value);
      }
      if closeServer {
        CheckStopServer();
      }
    }

    method CheckStopServer()
      modifies this
      ensures RelayState(serverStopped, effects) == StopServer(cfg, old(RelayState(serverStopped, effects)))
    {
      if serverStopped || !cfg.hasServer {
        return;
      }
      serverStopped := true;
      effects := effects + [ServerClose];
    }

    method HandleClientData(chunk: Bytes)
      modifies this
      ensures serverStopped == old(serverStopped)
      ensures effects == old(effects) + ClientDataEffects(cfg, chunk)
    {
      effects := effects + [RemoteWrite(OutFold(cfg.preOuts, cfg.remote, chunk))];
    }

    /** preIn with a callback that writes each chunk it is given to the client. */
    method HandleRemoteData(chunk: Bytes)
      modifies this
      ensures serverStopped == old(serverStopped)
      ensures effects == old(effects) + RemoteDataEffects(cfg, chunk)
    {
      var chain := new Chain(cfg.preIns);
      chain.Call(cfg.remote, chunk);
      assert chain.delivered == Run(cfg.preIns, cfg.remote, chunk).delivered;
      WriteToClient(chain.delivered);
    }

    /** The preIn callback, called once per chunk the chain delivers. */
    method WriteToClient(out: seq<Bytes>)
      modifies this
      ensures serverStopped == old(serverStopped)
      ensures effects == old(effects) + ClientWrites(out)
    {
      var i := 0;
      while i < |out|
        invariant 0 <= i <= |out|
        invariant serverStopped == old(serverStopped)
        invariant effects == old(effects) + ClientWrites(out[..i])
      {
        assert out[..i + 1] == out[..i] + [out[i]];
        ClientWritesAppend(out[..i], out[i]);
        effects := effects + [ClientWrite(out[i])];
        i := i + 1;
      }
      assert out[..i] == out;
    }

    /** The handler registered for an event. */
    method OnEvent(e: Event)
      modifies this
      ensures RelayState(serverStopped, effects) == React(cfg, old(RelayState(serverStopped, effects)), e)
    {
      match e {
        case ClientData(chunk) => HandleClientData(chunk);
        case ClientEndEvent => CheckStopServer(); effects := effects + [RemoteEnd];
        case ClientError => CheckStopServer(); effects := effects + [RemoteDestroy];
        case ClientTimeout => CheckStopServer(); effects := effects + [RemoteDestroy];
        case RemoteData(chunk) => HandleRemoteData(chunk);
        case RemoteEndEvent => CheckStopServer(); effects := effects + [ClientEnd];
        case RemoteError => CheckStopServer(); effects := effects + [ClientDestroy];
        case RemoteTimeout => CheckStopServer(); effects := effects + [ClientDestroy];
      }
    }
  }

  lemma {:induction false} ClientWritesAppend(chunks: seq<Bytes>, c: Bytes)
    ensures ClientWrites(chunks + [c]) == ClientWrites(chunks) + [ClientWrite(c)]
  {
  }
}
