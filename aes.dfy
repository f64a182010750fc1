/**
 * The AES extension (extensions/aes.js): for the remote endpoints listed in aes.json it
 * frames and encrypts every outgoing chunk and reassembles and decrypts every incoming
 * one, through the framing codec; other endpoints' traffic passes through untouched.
 * The cipher, keyed from the configuration, is given as the function values `encrypt`
 * and `decrypt`.
 */
module Aes {
  import opened JsBase
  import opened JsBuffer
  import opened JsText
  import opened FrameIO
  import opened Extensions
  import Utf8

  /** aes.json: for every key, whether its value is truthy. */
  type Conf = map<string, bool>

  predicate Truthy(conf: Conf, key: string) {
    key in conf && conf[key]
  }

  /** The key an endpoint is looked up under: `[addr]:port` for IPv6, `addr:port` otherwise. */
  function EndpointKey(socket: Endpoint): string {
    var port := IntToDec(socket.port);
    if socket.family == "IPv6" then "[" + socket.address + "]:" + port
    else socket.address + ":" + port
  }

  /** _isEndpointEnabled: the endpoint's key or its bare address is truthy in the configuration. */
  predicate IsEndpointEnabled(conf: Conf, socket: Endpoint)
    ensures IsEndpointEnabled(conf, socket) ==> true in conf.Values
  {
    Truthy(conf, EndpointKey(socket)) || Truthy(conf, socket.address)
  }

  /** preOut(socket, chunk): a frame around the encrypted chunk, or the chunk itself. */
  function PreOut(conf: Conf, encrypt: Bytes -> Bytes, socket: Endpoint, chunk: Bytes): (r: Bytes)
    requires |encrypt(chunk)| < TWO_63
    ensures r == chunk || |r| == HEADER_LEN + |encrypt(chunk)|
    ensures conf == map[] ==> r == chunk
  {
    if IsEndpointEnabled(conf, socket) then GetWritableData(chunk, encrypt) else chunk
  }

  /**
   * preIn(socket, chunk, callback), given the socket's reassembly fields before the call:
   * readData on them when the endpoint is enabled, otherwise one callback with the chunk
   * and the fields untouched.
   */
  function PreIn(conf: Conf, decrypt: Bytes -> Bytes, s: ReaderState, socket: Endpoint, chunk: Bytes): (r: FeedResult)
    requires Inv(s)
    ensures Inv(r.state)
  {
    if IsEndpointEnabled(conf, socket) then Feed(s, chunk, decrypt) else FeedResult(true, s, [chunk])
  }

  // ---- properties ----

  /**
   * For an endpoint that is not enabled, preOut returns the chunk and preIn calls back
   * once with it, leaving the socket's fields as they were.
   */
  lemma PassThrough(conf: Conf, encrypt: Bytes -> Bytes, decrypt: Bytes -> Bytes, s: ReaderState, socket: Endpoint, chunk: Bytes)
    requires !IsEndpointEnabled(conf, socket) && Inv(s) && |encrypt(chunk)| < TWO_63
    ensures PreOut(conf, encrypt, socket, chunk) == chunk
    ensures PreIn(conf, decrypt, s, socket, chunk) == FeedResult(true, s, [chunk])
  {
  }

  /** For an enabled endpoint, preOut is one frame: the 8-byte length, then the encrypted chunk. */
  lemma EnabledFrame(conf: Conf, encrypt: Bytes -> Bytes, socket: Endpoint, chunk: Bytes)
    requires IsEndpointEnabled(conf, socket) && |encrypt(chunk)| < TWO_63
    ensures |PreOut(conf, encrypt, socket, chunk)| == HEADER_LEN + |encrypt(chunk)|
    ensures ReadInt64LE(PreOut(conf, encrypt, socket, chunk)[..HEADER_LEN]) == |encrypt(chunk)|
    ensures PreOut(conf, encrypt, socket, chunk)[HEADER_LEN..] == encrypt(chunk)
  {
  }

  /**
   * A chunk sent through preOut and received in one piece through preIn on a socket with
   * no partial frame comes back unchanged, once, whether or not the endpoint is enabled,
   * when decryption undoes encryption.
   */
  lemma OneChunkRoundTrip(conf: Conf, encrypt: Bytes -> Bytes, decrypt: Bytes -> Bytes, socket: Endpoint, chunk: Bytes)
    requires forall m :: decrypt(encrypt(m)) == m
    requires |encrypt(chunk)| < TWO_63
    ensures PreIn(conf, decrypt, Fresh, socket, PreOut(conf, encrypt, socket, chunk))
         == FeedResult(true, Fresh, [chunk])
  {
    if IsEndpointEnabled(conf, socket) {
      var f := GetWritableData(chunk, encrypt);
      assert f[HEADER_LEN..] == encrypt(chunk);
      assert Cleared(Fresh) == Fresh;
    }
  }

  /** preIn applied to each incoming chunk of a socket in turn; an exception ends the socket's reads. */
  function PreInAll(conf: Conf, decrypt: Bytes -> Bytes, s: ReaderState, socket: Endpoint, chunks: seq<Bytes>): (r: FeedResult)
    requires Inv(s)
    ensures Inv(r.state)
    decreases |chunks|
  {
    if chunks == [] then FeedResult(true, s, [])
    else
      var first := PreIn(conf, decrypt, s, socket, chunks[0]);
      if !first.ok then first
      else
        var rest := PreInAll(conf, decrypt, first.state, socket, chunks[1..]);
        FeedResult(rest.ok, rest.state, first.out + rest.out)
  }

  /** For an enabled endpoint, preIn over a chunk sequence is readData over it. */
  lemma {:induction false} EnabledPreInAll(conf: Conf, decrypt: Bytes -> Bytes, s: ReaderState, socket: Endpoint, chunks: seq<Bytes>)
    requires IsEndpointEnabled(conf, socket) && Inv(s)
    ensures PreInAll(conf, decrypt, s, socket, chunks) == FeedAll(s, chunks, decrypt)
    decreases |chunks|
  {
    if chunks != [] {
      var first := Feed(s, chunks[0], decrypt);
      if first.ok {
        EnabledPreInAll(conf, decrypt, first.state, socket, chunks[1..]);
      }
    }
  }

  /** For an endpoint that is not enabled, preIn over a chunk sequence calls back with each chunk, in order. */
  lemma {:induction false} DisabledPreInAll(conf: Conf, decrypt: Bytes -> Bytes, s: ReaderState, socket: Endpoint, chunks: seq<Bytes>)
    requires !IsEndpointEnabled(conf, socket) && Inv(s)
    ensures PreInAll(conf, decrypt, s, socket, chunks) == FeedResult(true, s, chunks)
    decreases |chunks|
  {
    if chunks != [] {
      DisabledPreInAll(conf, decrypt, s, socket, chunks[1..]);
      assert [chunks[0]] + chunks[1..] == chunks;
    }
  }

  /**
   * An enabled endpoint's incoming chunks, passed to preIn one after the other from a fresh
   * socket, deliver the payloads the peer framed, in order, whatever the chunking outside
   * the headers, when decryption undoes encryption.
   */
  lemma EnabledStream(conf: Conf, socket: Endpoint, payloads: seq<Bytes>, chunks: seq<Bytes>,
                      encrypt: Bytes -> Bytes, decrypt: Bytes -> Bytes)
    requires IsEndpointEnabled(conf, socket)
    requires forall m :: decrypt(encrypt(m)) == m
    requires forall i :: 0 <= i < |payloads| ==> |encrypt(payloads[i])| < TWO_63
    requires Concat(chunks) == WrittenStream(payloads, encrypt)
    requires AllFit(Encrypted(payloads, encrypt)) && GoodCuts(Encrypted(payloads, encrypt), 0, chunks)
    ensures PreInAll(conf, decrypt, Fresh, socket, chunks).ok
    ensures PreInAll(conf, decrypt, Fresh, socket, chunks).out == payloads
  {
    EnabledPreInAll(conf, decrypt, Fresh, socket, chunks);
    PayloadsRoundTrip(payloads, chunks, encrypt, decrypt);
  }

  /**
   * The same stream with the text-decoding cipher crypt.decrypt is: each payload is
   * delivered after a UTF-8 decode and re-encode.
   */
  lemma EnabledTextStream(conf: Conf, socket: Endpoint, payloads: seq<Bytes>, chunks: seq<Bytes>,
                          encrypt: Bytes -> Bytes, decrypt: Bytes -> Bytes)
    requires IsEndpointEnabled(conf, socket)
    requires forall m :: decrypt(encrypt(m)) == Utf8.Encode(Utf8.Decode(m))
    requires forall i :: 0 <= i < |payloads| ==> |encrypt(payloads[i])| < TWO_63
    requires Concat(chunks) == WrittenStream(payloads, encrypt)
    requires AllFit(Encrypted(payloads, encrypt)) && GoodCuts(Encrypted(payloads, encrypt), 0, chunks)
    ensures PreInAll(conf, decrypt, Fresh, socket, chunks).ok
    ensures |PreInAll(conf, decrypt, Fresh, socket, chunks).out| == |payloads|
    ensures forall i :: 0 <= i < |payloads| ==>
      PreInAll(conf, decrypt, Fresh, socket, chunks).out[i] == Utf8.Encode(Utf8.Decode(payloads[i]))
  {
    EnabledPreInAll(conf, decrypt, Fresh, socket, chunks);
    TextCipherDelivery(payloads, chunks, encrypt, decrypt);
  }

  /** A truthy bare address enables every port and family at that address. */
  lemma AddressEnablesAll(conf: Conf, socket: Endpoint)
    requires Truthy(conf, socket.address)
    ensures IsEndpointEnabled(conf, socket)
  {
  }

  /**
   * A lone `addr:port` entry enables that endpoint exactly when it is not IPv6: an IPv6
   * endpoint is looked up under `[addr]:port`.
   */
  lemma UnbracketedKey(socket: Endpoint)
    ensures IsEndpointEnabled(map[socket.address + ":" + IntToDec(socket.port) := true], socket)
        <==> socket.family != "IPv6"
  {
    var k := socket.address + ":" + IntToDec(socket.port);
    assert |k| > |socket.address|;
    assert socket.family == "IPv6" ==> |EndpointKey(socket)| == |k| + 2;
  }

  /** An `addr:port` entry does not enable the same address at another port. */
  lemma OtherPort(socket: Endpoint, port: nat)
    requires socket.family != "IPv6" && socket.port >= 0 && port != socket.port
    ensures !IsEndpointEnabled(map[socket.address + ":" + IntToDec(port) := true], socket)
  {
    var k := socket.address + ":" + IntToDec(port);
    assert |k| > |socket.address|;
    if EndpointKey(socket) == k {
      var n := |socket.address| + 1;
      assert EndpointKey(socket)[n..] == NatToDec(socket.port);
      assert k[n..] == NatToDec(port);
      ParseIntNatToDec(socket.port);
      ParseIntNatToDec(port);
    }
  }
}
