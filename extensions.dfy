/**
 * The extension pipeline of lib/extensionsmanager.js. Each configured extension adds a
 * stage to one of three lists: pre_connect stages rewrite the host and port a client asks
 * for, pre_out stages transform every chunk sent to the remote end, and pre_in stages
 * pass every chunk coming back through a chain of continuations. Stages are given here
 * as function values; the modules they are loaded from are not modelled.
 */
module Extensions {
  import opened JsBase

  /** A port as the stages pass it on: the number from the request, or text from a table. */
  datatype Port = PortNum(n: int) | PortText(text: string)

  /** The {host, port} object the pre_connect stages pass along. */
  datatype HostPort = HostPort(host: string, port: Port)

  /** What a stage can see of the remote socket. */
  datatype Endpoint = Endpoint(address: string, port: int, family: string)

  /** preConnect(host, port) of one extension. */
  type ConnectStage = (string, Port) -> HostPort

  /** preOut(socket, chunk) of one extension. */
  type OutStage = (Endpoint, Bytes) -> Bytes

  /**
   * preIn(socket, chunk, callback) of one extension, given as the arguments it passes to
   * its callback, in the order it passes them.
   */
  type InStage = (Endpoint, Bytes) -> seq<Bytes>

  // ---- preConnect and preOut: left folds ----

  /** Every stage returns the host and port it is given. */
  ghost predicate PassConnects(stages: seq<ConnectStage>) {
    forall i, h, p :: 0 <= i < |stages| ==> stages[i](h, p) == HostPort(h, p)
  }

  /** Every stage returns the chunk it is given for this socket. */
  ghost predicate PassOuts(stages: seq<OutStage>, socket: Endpoint) {
    forall i, c :: 0 <= i < |stages| ==> stages[i](socket, c) == c
  }

  /** The {host, port} after the stages, each given what the one before it returned. */
  function ConnectFold(stages: seq<ConnectStage>, start: HostPort): (r: HostPort)
    decreases |stages|
    ensures PassConnects(stages) ==> r == start
  {
    if stages == [] then start
    else
      var before := ConnectFold(stages[..|stages| - 1], start);
      stages[|stages| - 1](before.host, before.port)
  }

  /** The chunk after the stages, each given what the one before it returned. */
  function OutFold(stages: seq<OutStage>, socket: Endpoint, chunk: Bytes): (r: Bytes)
    decreases |stages|
    ensures PassOuts(stages, socket) ==> r == chunk
  {
    if stages == [] then chunk
    else stages[|stages| - 1](socket, OutFold(stages[..|stages| - 1], socket, chunk))
  }

  /** Running two lists of pre_connect stages one after the other is running their concatenation. */
  lemma {:induction false} ConnectFoldAppend(s1: seq<ConnectStage>, s2: seq<ConnectStage>, start: HostPort)
    decreases |s2|
    ensures ConnectFold(s1 + s2, start) == ConnectFold(s2, ConnectFold(s1, start))
  {
    if s2 == [] {
      assert s1 + s2 == s1;
    } else {
      var init := s2[..|s2| - 1];
      assert (s1 + s2)[..|s1 + s2| - 1] == s1 + init;
      ConnectFoldAppend(s1, init, start);
    }
  }

  /** Running two lists of pre_out stages one after the other is running their concatenation. */
  lemma {:induction false} OutFoldAppend(s1: seq<OutStage>, s2: seq<OutStage>, socket: Endpoint, chunk: Bytes)
    decreases |s2|
    ensures OutFold(s1 + s2, socket, chunk) == OutFold(s2, socket, OutFold(s1, socket, chunk))
  {
    if s2 == [] {
      assert s1 + s2 == s1;
    } else {
      var init := s2[..|s2| - 1];
      assert (s1 + s2)[..|s1 + s2| - 1] == s1 + init;
      OutFoldAppend(s1, init, socket, chunk);
    }
  }

  /** Stage i is given exactly what stage i - 1 returned. */
  lemma ConnectFoldStep(stages: seq<ConnectStage>, i: nat, start: HostPort)
    requires i < |stages|
    ensures var before := ConnectFold(stages[..i], start);
      ConnectFold(stages[..i + 1], start) == stages[i](before.host, before.port)
  {
    assert stages[..i + 1][..i] == stages[..i];
  }

  // ---- preIn: the continuation chain ----

  /** What a call of chainCall leaves behind: the data passed to the callback, and the stages not yet shifted off. */
  datatype ChainResult = ChainResult(delivered: seq<Bytes>, left: seq<InStage>)

  /**
   * chainCall(data) with `fns` holding the stages not yet shifted off. The list is shared
   * by every call, so once a stage has been shifted off, a later call of the continuation
   * goes on with whatever stages are left at that moment.
   */
  function Run(fns: seq<InStage>, socket: Endpoint, data: Bytes): (r: ChainResult)
    decreases |fns|, 0, 0
    ensures |r.left| <= |fns|
  {
    if fns == [] then ChainResult([data], [])
    else RunAll(fns[1..], socket, fns[0](socket, data))
  }

  /** chainCall applied to each of xs in turn, the stages shifted off by one call gone for the next. */
  function RunAll(fns: seq<InStage>, socket: Endpoint, xs: seq<Bytes>): (r: ChainResult)
    decreases |fns|, 1, |xs|
    ensures |r.left| <= |fns|
  {
    if xs == [] then ChainResult([], fns)
    else
      var first := Run(fns, socket, xs[0]);
      var rest := RunAll(first.left, socket, xs[1..]);
      ChainResult(first.delivered + rest.delivered, rest.left)
  }

  /** A stage that calls its continuation exactly once, whatever it is given. */
  ghost predicate OnceStage(f: InStage) {
    forall s: Endpoint, x: Bytes :: |f(s, x)| == 1
  }

  /** The data after each stage, when every stage calls its continuation once. */
  ghost function Composed(fns: seq<InStage>, socket: Endpoint, data: Bytes): Bytes
    requires forall i :: 0 <= i < |fns| ==> OnceStage(fns[i])
    decreases |fns|
  {
    if fns == [] then data
    else
      assert OnceStage(fns[0]);
      Composed(fns[1..], socket, fns[0](socket, data)[0])
  }

  /** With no pre_in stages the callback gets the chunk itself, once. */
  lemma RunNoStages(socket: Endpoint, data: Bytes)
    ensures Run([], socket, data) == ChainResult([data], [])
  {
  }

  /**
   * When every stage calls its continuation exactly once, each stage gets what the one
   * before it passed on, and the callback gets the last stage's output exactly once.
   */
  lemma {:induction false} RunOnce(fns: seq<InStage>, socket: Endpoint, data: Bytes)
    requires forall i :: 0 <= i < |fns| ==> OnceStage(fns[i])
    decreases |fns|
    ensures Run(fns, socket, data) == ChainResult([Composed(fns, socket, data)], [])
  {
    if fns != [] {
      assert OnceStage(fns[0]);
      var out := fns[0](socket, data);
      assert out == [out[0]];
      assert forall i :: 0 <= i < |fns[1..]| ==> fns[1..][i] == fns[i + 1];
      RunOnce(fns[1..], socket, out[0]);
      assert out[1..] == [];
      var r1 := Run(fns[1..], socket, out[0]);
      assert RunAll([], socket, out[1..]) == ChainResult([], []);
      assert RunAll(fns[1..], socket, out) == ChainResult(r1.delivered + [], []);
    }
  }

  /**
   * A stage that calls its continuation twice sends its first output through the stages
   * after it and its second output straight to the callback, as the shared list is empty
   * by then.
   */
  lemma TwiceBypasses(dup: InStage, g: InStage, socket: Endpoint, data: Bytes, a: Bytes, b: Bytes, c: Bytes)
    requires dup(socket, data) == [a, b] && g(socket, a) == [c]
    ensures Run([dup, g], socket, data) == ChainResult([c, b], [])
  {
    var fns := [dup, g];
    assert fns[1..] == [g];
    assert [g][1..] == [];
    var first := Run([g], socket, a);
    assert first == RunAll([], socket, [c]);
    assert Run([], socket, c) == ChainResult([c], []);
    assert RunAll([], socket, [c]) == ChainResult([c], []);
    assert RunAll([], socket, [b]) == ChainResult([b], []);
    assert [a, b][1..] == [b];
  }

  /** The closure chainCall and the `fns` array it shifts. */
  class Chain {
    var fns: seq<InStage>
    var delivered: seq<Bytes>

    constructor(fns: seq<InStage>)
      ensures this.fns == fns && delivered == []
    {
      this.fns := fns;
      delivered := [];
    }

    /** chainCall(data): the callback when no stage is left, else the next stage, shifted off. */
    method Call(socket: Endpoint, data: Bytes)
      modifies this
      decreases |fns|, 0
      ensures var r := Run(old(fns), socket, data);
        fns == r.left && delivered == old(delivered) + r.delivered
    {
      if fns == [] {
        delivered := delivered + [data];
        return;
      }
      var fn := fns[0];
      fns := fns[1..];
      var outs := fn(socket, data);
      CallEach(socket, outs);
    }

    /** The stage calling its continuation with each of its outputs in turn. */
    method CallEach(socket: Endpoint, outs: seq<Bytes>)
      modifies this
      decreases |fns|, 1
      ensures var r := RunAll(old(fns), socket, outs);
        fns == r.left && delivered == old(delivered) + r.delivered
    {
      ghost var fns0 := fns;
      ghost var delivered0 := delivered;
      for i := 0 to |outs|
        invariant |fns| <= |fns0|
        invariant |delivered0| <= |delivered| && delivered[..|delivered0|] == delivered0
        invariant var r := RunAll(fns, socket, outs[i..]);
          RunAll(fns0, socket, outs) == ChainResult(delivered[|delivered0|..] + r.delivered, r.left)
      {
        ghost var before := delivered;
        assert outs[i..][1..] == outs[i + 1..];
        Call(socket, outs[i]);
        assert delivered[|delivered0|..] == before[|delivered0|..] + delivered[|before|..];
      }
      assert outs[|outs|..] == [];
      assert delivered == delivered0 + delivered[|delivered0|..];
    }
  }

  /** The three stage lists the module keeps. */
  class ExtensionsManager {
    var preConnects: seq<ConnectStage>
    var preOuts: seq<OutStage>
    var preIns: seq<InStage>

    constructor()
      ensures preConnects == [] && preOuts == [] && preIns == []
    {
      preConnects, preOuts, preIns := [], [], [];
    }

    /** initSync(): the configured stages are appended to what is already there, never replacing it. */
    method InitSync(connects: seq<ConnectStage>, outs: seq<OutStage>, ins: seq<InStage>)
      modifies this
      ensures preConnects == old(preConnects) + connects
      ensures preOuts == old(preOuts) + outs
      ensures preIns == old(preIns) + ins
    {
      for i := 0 to |connects|
        invariant preConnects == old(preConnects) + connects[..i]
        invariant preOuts == old(preOuts) && preIns == old(preIns)
      {
        preConnects := preConnects + [connects[i]];
      }
      for i := 0 to |outs|
        invariant preConnects == old(preConnects) + connects
        invariant preOuts == old(preOuts) + outs[..i] && preIns == old(preIns)
      {
        preOuts := preOuts + [outs[i]];
      }
      for i := 0 to |ins|
        invariant preConnects == old(preConnects) + connects && preOuts == old(preOuts) + outs
        invariant preIns == old(preIns) + ins[..i]
      {
        preIns := preIns + [ins[i]];
      }
      assert connects[..|connects|] == connects && outs[..|outs|] == outs && ins[..|ins|] == ins;
    }

    /** preConnect(host, port). */
    method PreConnect(host: string, port: Port) returns (r: HostPort)
      ensures r == ConnectFold(preConnects, HostPort(host, port))
    {
      r := HostPort(host, port);
      for i := 0 to |preConnects|
        invariant r == ConnectFold(preConnects[..i], HostPort(host, port))
      {
        ConnectFoldStep(preConnects, i, HostPort(host, port));
        r := preConnects[i](r.host, r.port);
      }
      assert preConnects[..|preConnects|] == preConnects;
    }

    /** preOut(socket, chunk). */
    method PreOut(socket: Endpoint, chunk: Bytes) returns (r: Bytes)
      ensures r == OutFold(preOuts, socket, chunk)
    {
      r := chunk;
      for i := 0 to |preOuts|
        invariant r == OutFold(preOuts[..i], socket, chunk)
      {
        assert preOuts[..i + 1][..i] == preOuts[..i];
        r := preOuts[i](socket, r);
      }
      assert preOuts[..|preOuts|] == preOuts;
    }

    /**
     * preIn(socket, chunk, callback): the data the callback receives, in order. The chain
     * works on a copy of the stage list, which stays as it was.
     */
    method PreIn(socket: Endpoint, chunk: Bytes) returns (delivered: seq<Bytes>)
      ensures delivered == Run(preIns, socket, chunk).delivered
    {
      var chain := new Chain(preIns);
      chain.Call(socket, chunk);
      delivered := chain.delivered;
    }
  }
}
