/**
 * The length-prefixed framing used by stream-transforming extensions
 * (lib/io.js): an encoder that prefixes an encrypted payload with its length as a
 * signed 64-bit little-endian integer, and an incremental decoder that keeps
 * per-connection reassembly state and hands every complete frame, decrypted, to a
 * callback.
 *
 * The cipher is not modelled: `encrypt` and `decrypt` are function values standing
 * for crypt.encrypt and crypt.decrypt applied with the extension's key.
 */
module FrameIO {
  import opened JsBase
  import opened JsBuffer
  import Utf8

  const HEADER_LEN := 8

  /** One frame around an already encrypted body. */
  function Frame(e: Bytes): (f: Bytes)
    requires |e| < TWO_63
    ensures |f| == HEADER_LEN + |e|
  {
    Int64LE(|e|) + e
  }

  /**
   * getWritableData: the 8-byte signed little-endian length of the encrypted payload,
   * then exactly the encrypted bytes.
   */
  function GetWritableData(data: Bytes, encrypt: Bytes -> Bytes): (frame: Bytes)
    requires |encrypt(data)| < TWO_63
    ensures |frame| == HEADER_LEN + |encrypt(data)|
    ensures ReadInt64LE(frame[..HEADER_LEN]) == |encrypt(data)|
    ensures frame[HEADER_LEN..] == encrypt(data)
  {
    var f := Frame(encrypt(data));
    assert f[..HEADER_LEN] == Int64LE(|encrypt(data)|);
    Int64LERoundTrip(|encrypt(data)|);
    f
  }

  // ---- the decoder's per-connection state ----

  /**
   * The four `__vssh_*` fields the decoder keeps on a socket. A deleted field is
   * modelled as 0 or the empty buffer; `bytesRead` is never deleted by the source.
   */
  datatype ReaderState = ReaderState(waiting: bool, bytesToRead: int, bytesRead: int, stash: Bytes)

  /** A socket that has not received any framed data yet. */
  const Fresh := ReaderState(false, 0, 0, [])

  /** While waiting, the stash holds exactly the bytes read so far, and they are fewer than the frame. */
  predicate Inv(s: ReaderState) {
    s.waiting ==> 0 <= s.bytesRead < s.bytesToRead && |s.stash| == s.bytesRead
  }

  /** cleanSocketAndSendData's effect on the fields (bytes_read is left as it was). */
  function Cleared(s: ReaderState): ReaderState {
    ReaderState(false, 0, s.bytesRead, [])
  }

  /** What one readData call does: whether it returned normally, the new fields, and the opFunc calls. */
  datatype FeedResult = FeedResult(ok: bool, state: ReaderState, out: seq<Bytes>)

  /**
   * readData(socket, data, key, opFunc) as a function of the fields before the call.
   * `ok` is false when readBigInt64LE throws on a header shorter than 8 bytes.
   */
  function Feed(s: ReaderState, data: Bytes, decrypt: Bytes -> Bytes): (r: FeedResult)
    requires Inv(s)
    decreases |data|
    ensures Inv(r.state)
    ensures !r.ok ==> !r.state.waiting
  {
    if !s.waiting then
      if |data| < HEADER_LEN then FeedResult(false, s, [])
      else
        var n := ReadInt64LE(data[..HEADER_LEN]);
        var body := data[HEADER_LEN..];
        if |body| < n then
          FeedResult(true, ReaderState(true, n, |body|, body), [])
        else if |body| > n then
          var cut := SliceIndex(n, |body|);
          var rest := Feed(Cleared(s), body[cut..], decrypt);
          FeedResult(rest.ok, rest.state, [decrypt(body[..cut])] + rest.out)
        else
          FeedResult(true, Cleared(s), [decrypt(body)])
    else
      var total := s.bytesRead + |data|;
      if total == s.bytesToRead then
        FeedResult(true, Cleared(s), [decrypt(s.stash + data)])
      else if total > s.bytesToRead then
        var need := s.bytesToRead - s.bytesRead;
        var rest := Feed(Cleared(s), data[need..], decrypt);
        FeedResult(rest.ok, rest.state, [decrypt(s.stash + data[..need])] + rest.out)
      else
        FeedResult(true, ReaderState(true, s.bytesToRead, total, s.stash + data), [])
  }

  /**
   * The decoder attached to one connection. `delivered` records, in order, every value
   * passed to opFunc.
   */
  class FrameReader {
    var waiting: bool
    var bytesToRead: int
    var bytesRead: int
    var stash: Bytes
    var delivered: seq<Bytes>

    function State(): ReaderState
      reads this
    {
      ReaderState(waiting, bytesToRead, bytesRead, stash)
    }

    predicate Valid()
      reads this
    {
      Inv(State())
    }

    constructor ()
      ensures Valid() && State() == Fresh && delivered == []
    {
      waiting, bytesToRead, bytesRead, stash := false, 0, 0, [];
      delivered := [];
    }

    /** cleanSocketAndSendData: drop the waiting fields, then call opFunc with the decrypted frame. */
    method CleanAndSend(frame: Bytes, decrypt: Bytes -> Bytes)
      modifies this
      ensures State() == Cleared(old(State()))
      ensures delivered == old(delivered) + [decrypt(frame)]
    {
      waiting, bytesToRead, stash := false, 0, [];
      delivered := delivered + [decrypt(frame)];
    }

    /** readData: feed one chunk of the inbound stream. */
    method ReadData(data: Bytes, decrypt: Bytes -> Bytes) returns (ok: bool)
      requires Valid()
      modifies this
      decreases |data|, 1
      ensures Valid()
      ensures ok == Feed(old(State()), data, decrypt).ok
      ensures State() == Feed(old(State()), data, decrypt).state
      ensures delivered == old(delivered) + Feed(old(State()), data, decrypt).out
    {
      if !waiting {
        ok := ReadHeader(data, decrypt);
      } else {
        ok := ReadMore(data, decrypt);
      }
    }

    /** The branch of readData taken when no frame is pending: the chunk starts with a header. */
    method ReadHeader(data: Bytes, decrypt: Bytes -> Bytes) returns (ok: bool)
      requires Valid() && !waiting
      modifies this
      decreases |data|, 0
      ensures Valid()
      ensures ok == Feed(old(State()), data, decrypt).ok
      ensures State() == Feed(old(State()), data, decrypt).state
      ensures delivered == old(delivered) + Feed(old(State()), data, decrypt).out
    {
      if |data| < HEADER_LEN {
        return false;
      }
      var n := ReadInt64LE(data[..HEADER_LEN]);
      var body := data[HEADER_LEN..];
      if |body| < n {
        waiting, bytesToRead, bytesRead, stash := true, n, |body|, body;
        ok := true;
      } else if |body| > n {
        var cut := SliceIndex(n, |body|);
        CleanAndSend(body[..cut], decrypt);
        ok := ReadData(body[cut..], decrypt);
      } else {
        CleanAndSend(body, decrypt);
        ok := true;
      }
    }

    /** The branch of readData taken while a frame is pending: the chunk continues its body. */
    method ReadMore(data: Bytes, decrypt: Bytes -> Bytes) returns (ok: bool)
      requires Valid() && waiting
      modifies this
      decreases |data|, 0
      ensures Valid()
      ensures ok == Feed(old(State()), data, decrypt).ok
      ensures State() == Feed(old(State()), data, decrypt).state
      ensures delivered == old(delivered) + Feed(old(State()), data, decrypt).out
    {
      if bytesRead + |data| == bytesToRead {
        FeedExact(State(), data, decrypt);
        CleanAndSend(stash + data, decrypt);
        ok := true;
      } else if bytesRead + |data| > bytesToRead {
        var need := bytesToRead - bytesRead;
        FeedOvershoot(State(), data, need, decrypt);
        CleanAndSend(stash + data[..need], decrypt);
        ok := ReadData(data[need..], decrypt);
      } else {
        FeedShort(State(), data, decrypt);
        bytesRead := bytesRead + |data|;
        stash := stash + data;
        ok := true;
      }
    }
  }

  // ---- properties of the decoder, one chunk at a time ----

  /** A fresh or completed decoder reads the header from the chunk itself: fewer than 8 bytes throw. */
  lemma ShortHeaderThrows(s: ReaderState, data: Bytes, decrypt: Bytes -> Bytes)
    requires Inv(s) && !s.waiting && |data| < HEADER_LEN
    ensures Feed(s, data, decrypt) == FeedResult(false, s, [])
  {
  }

  // ---- the stream of frames ----

  predicate AllFit(es: seq<Bytes>) {
    forall i :: 0 <= i < |es| ==> |es[i]| < TWO_63
  }

  /** The concatenation of the frames around the encrypted bodies es. */
  function Frames(es: seq<Bytes>): (f: Bytes)
    requires AllFit(es)
  {
    if es == [] then [] else Frame(es[0]) + Frames(es[1..])
  }

  /** The decrypted bodies, in order. */
  function Decrypted(es: seq<Bytes>, decrypt: Bytes -> Bytes): (ps: seq<Bytes>)
    ensures |ps| == |es|
  {
    if es == [] then [] else [decrypt(es[0])] + Decrypted(es[1..], decrypt)
  }

  /** The concatenation of a sequence of chunks. */
  function Concat(chunks: seq<Bytes>): Bytes {
    if chunks == [] then [] else chunks[0] + Concat(chunks[1..])
  }

  /** The offset in Frames(es) at which frame k starts. */
  function Start(es: seq<Bytes>, k: nat): nat
    requires AllFit(es) && k <= |es|
  {
    |Frames(es[..k])|
  }

  /** Position p falls strictly inside the 8-byte header of some frame. */
  predicate SplitsHeader(es: seq<Bytes>, p: int)
    requires AllFit(es)
  {
    exists i :: 0 <= i < |es| && Start(es, i) < p < Start(es, i) + HEADER_LEN
  }

  lemma {:induction false} FramesAppend(a: seq<Bytes>, b: seq<Bytes>)
    requires AllFit(a) && AllFit(b)
    ensures AllFit(a + b) && Frames(a + b) == Frames(a) + Frames(b)
  {
    if a != [] {
      assert (a + b)[1..] == a[1..] + b;
      FramesAppend(a[1..], b);
    } else {
      assert a + b == b;
    }
  }

  lemma {:induction false} DecryptedAppend(a: seq<Bytes>, b: seq<Bytes>, decrypt: Bytes -> Bytes)
    ensures Decrypted(a + b, decrypt) == Decrypted(a, decrypt) + Decrypted(b, decrypt)
  {
    if a != [] {
      assert (a + b)[1..] == a[1..] + b;
      DecryptedAppend(a[1..], b, decrypt);
    } else {
      assert a + b == b;
    }
  }

  /** Frame k occupies Start(k) .. Start(k+1): its header, then its body. */
  lemma FrameAt(es: seq<Bytes>, k: nat)
    requires AllFit(es) && k < |es|
    ensures Start(es, k + 1) == Start(es, k) + HEADER_LEN + |es[k]| <= |Frames(es)|
    ensures Frames(es)[Start(es, k)..Start(es, k) + HEADER_LEN] == Int64LE(|es[k]|)
    ensures Frames(es)[Start(es, k) + HEADER_LEN..Start(es, k + 1)] == es[k]
  {
    var p, m, q := FrameSplit(es, k);
    MiddleSlices(p, m, q, Int64LE(|es[k]|), es[k]);
  }

  /** The frames before frame k, frame k, and the frames after it. */
  lemma FrameSplit(es: seq<Bytes>, k: nat) returns (p: Bytes, m: Bytes, q: Bytes)
    requires AllFit(es) && k < |es|
    ensures Frames(es[..k + 1]) == Frames(es[..k]) + Frame(es[k])
    ensures Frames(es) == Frames(es[..k]) + Frame(es[k]) + Frames(es[k + 1..])
    ensures p == Frames(es[..k]) && m == Frame(es[k]) && q == Frames(es[k + 1..])
    ensures Start(es, k) == |p| && Start(es, k + 1) == |p + m| && Frames(es) == p + m + q
  {
    p, m, q := Frames(es[..k]), Frame(es[k]), Frames(es[k + 1..]);
    PrefixSplit(es, k);
    FramesAppend(es[..k], [es[k]]);
    assert Frames([es[k]]) == Frame(es[k]);
    FramesAppend(es[..k + 1], es[k + 1..]);
  }

  lemma PrefixSplit(es: seq<Bytes>, k: nat)
    requires k < |es|
    ensures es[..k + 1] == es[..k] + [es[k]] && es == es[..k + 1] + es[k + 1..]
  {
  }

  /** Where the header and the body of a frame m sit in p + m + q. */
  lemma MiddleSlices(p: Bytes, m: Bytes, q: Bytes, h: Bytes, e: Bytes)
    requires m == h + e && |h| == HEADER_LEN
    ensures |p + m| == |p| + HEADER_LEN + |e| <= |p + m + q|
    ensures (p + m + q)[|p|..|p| + HEADER_LEN] == h
    ensures (p + m + q)[|p| + HEADER_LEN..|p + m|] == e
  {
    assert (p + m + q)[|p|..|p| + HEADER_LEN] == m[..HEADER_LEN];
    assert (p + m + q)[|p| + HEADER_LEN..|p + m|] == m[HEADER_LEN..];
  }

  lemma StartAll(es: seq<Bytes>)
    requires AllFit(es)
    ensures Start(es, |es|) == |Frames(es)|
  {
    assert es[..|es|] == es;
  }

  lemma {:induction false} StartBefore(es: seq<Bytes>, k: nat)
    requires AllFit(es) && k < |es|
    ensures Start(es, k) < Start(es, |es|)
    decreases |es| - k
  {
    FrameAt(es, k);
    if k + 1 < |es| {
      StartBefore(es, k + 1);
    }
  }

  /**
   * The decoder has consumed the first pos bytes of Frames(es), has delivered frames
   * 0..k-1, and is either between frames or part-way into the body of frame k.
   */
  ghost predicate At(s: ReaderState, es: seq<Bytes>, pos: nat, k: nat)
    requires AllFit(es)
  {
    k <= |es| && Inv(s) &&
    if !s.waiting then pos == Start(es, k)
    else
      k < |es| && s.bytesToRead == |es[k]| && s.stash == es[k][..s.bytesRead]
      && pos == Start(es, k) + HEADER_LEN + s.bytesRead
  }

  lemma DecryptedStep(es: seq<Bytes>, k: nat, k2: nat, decrypt: Bytes -> Bytes)
    requires k < |es| && k + 1 <= k2 <= |es|
    ensures Decrypted(es[k..k2], decrypt) == [decrypt(es[k])] + Decrypted(es[k + 1..k2], decrypt)
  {
    assert es[k..k2][1..] == es[k + 1..k2];
  }

  /**
   * One chunk of the stream that does not end inside a header advances the decoder
   * from one consistent position to the next, delivering exactly the frames it
   * completes, decrypted and in order.
   */
  lemma {:induction false} FeedChunk(s: ReaderState, es: seq<Bytes>, pos: nat, k: nat, c: Bytes, decrypt: Bytes -> Bytes)
    returns (k2: nat)
    requires AllFit(es) && At(s, es, pos, k)
    requires |c| > 0 && pos + |c| <= |Frames(es)| && c == Frames(es)[pos..pos + |c|]
    requires !SplitsHeader(es, pos + |c|)
    ensures k <= k2 <= |es| && At(Feed(s, c, decrypt).state, es, pos + |c|, k2)
    ensures Feed(s, c, decrypt).ok && Feed(s, c, decrypt).out == Decrypted(es[k..k2], decrypt)
    decreases |c|, 2
  {
    if k == |es| {
      StartAll(es);
      assert false;
    }
    if !s.waiting {
      k2 := FeedHeaderChunk(s, es, pos, k, c, decrypt);
    } else {
      k2 := FeedBodyChunk(s, es, pos, k, c, decrypt);
    }
  }

  lemma {:induction false} FeedHeaderChunk(s: ReaderState, es: seq<Bytes>, pos: nat, k: nat, c: Bytes, decrypt: Bytes -> Bytes)
    returns (k2: nat)
    requires AllFit(es) && At(s, es, pos, k) && !s.waiting && k < |es|
    requires |c| > 0 && pos + |c| <= |Frames(es)| && c == Frames(es)[pos..pos + |c|]
    requires !SplitsHeader(es, pos + |c|)
    ensures k <= k2 <= |es| && At(Feed(s, c, decrypt).state, es, pos + |c|, k2)
    ensures Feed(s, c, decrypt).ok && Feed(s, c, decrypt).out == Decrypted(es[k..k2], decrypt)
    decreases |c|, 1
  {
    HeaderInChunk(es, pos, k, c);
    var len := |es[k]|;
    var body := c[HEADER_LEN..];
    if |body| < len {
      k2 := k;
    } else if |body| > len {
      var rest := body[len..];
      assert SliceIndex(len, |body|) == len;
      var k3 := FeedChunk(Cleared(s), es, Start(es, k + 1), k + 1, rest, decrypt);
      DecryptedStep(es, k, k3, decrypt);
      k2 := k3;
    } else {
      assert body == body[..len];
      DecryptedStep(es, k, k + 1, decrypt);
      k2 := k + 1;
    }
  }

  /** A chunk starting at frame k's header holds all of it; what follows is frame k's body and, past it, the next frames. */
  lemma HeaderInChunk(es: seq<Bytes>, pos: nat, k: nat, c: Bytes)
    requires AllFit(es) && k < |es| && pos == Start(es, k)
    requires |c| > 0 && pos + |c| <= |Frames(es)| && c == Frames(es)[pos..pos + |c|]
    requires !SplitsHeader(es, pos + |c|)
    ensures |c| >= HEADER_LEN && ReadInt64LE(c[..HEADER_LEN]) == |es[k]|
    ensures |c| - HEADER_LEN < |es[k]| ==> c[HEADER_LEN..] == es[k][..|c| - HEADER_LEN]
    ensures |c| - HEADER_LEN >= |es[k]| ==>
      c[HEADER_LEN..][..|es[k]|] == es[k] && Start(es, k + 1) == pos + HEADER_LEN + |es[k]|
      && c[HEADER_LEN..][|es[k]|..] == Frames(es)[Start(es, k + 1)..pos + |c|]
  {
    var f := Frames(es);
    FrameAt(es, k);
    var len := |es[k]|;
    if |c| < HEADER_LEN {
      assert false;
    }
    assert c[..HEADER_LEN] == f[pos..pos + HEADER_LEN];
    Int64LERoundTrip(len);
    var body := c[HEADER_LEN..];
    assert body == f[pos + HEADER_LEN..pos + |c|];
    if |body| < len {
      var b := f[pos + HEADER_LEN..Start(es, k + 1)];
      assert b[..|body|] == f[pos + HEADER_LEN..pos + |c|];
      assert body == es[k][..|body|];
    } else {
      assert body[..len] == es[k];
      assert body[len..] == f[Start(es, k + 1)..pos + |c|];
    }
  }

  lemma {:induction false} FeedBodyChunk(s: ReaderState, es: seq<Bytes>, pos: nat, k: nat, c: Bytes, decrypt: Bytes -> Bytes)
    returns (k2: nat)
    requires AllFit(es) && At(s, es, pos, k) && s.waiting
    requires |c| > 0 && pos + |c| <= |Frames(es)| && c == Frames(es)[pos..pos + |c|]
    requires !SplitsHeader(es, pos + |c|)
    ensures k <= k2 <= |es| && At(Feed(s, c, decrypt).state, es, pos + |c|, k2)
    ensures Feed(s, c, decrypt).ok && Feed(s, c, decrypt).out == Decrypted(es[k..k2], decrypt)
    decreases |c|, 1
  {
    FrameAt(es, k);
    var len := |es[k]|;
    var r := s.bytesRead;
    if r + |c| > len {
      k2 := FeedBodyOvershoot(s, es, pos, k, c, decrypt);
    } else {
      BodyBytes(es, k, r, |c|);
      assert c == es[k][r..r + |c|];
      assert s.stash + c == es[k][..r + |c|];
      if r + |c| == len {
        assert es[k][..r + |c|] == es[k];
        DecryptedStep(es, k, k + 1, decrypt);
        k2 := k + 1;
      } else {
        k2 := k;
      }
    }
  }

  /** The bytes of frame k's body from offset r, as they stand in the stream. */
  lemma BodyBytes(es: seq<Bytes>, k: nat, r: nat, n: nat)
    requires AllFit(es) && k < |es| && r + n <= |es[k]|
    ensures Start(es, k) + HEADER_LEN + r + n <= |Frames(es)|
    ensures Frames(es)[Start(es, k) + HEADER_LEN + r..Start(es, k) + HEADER_LEN + r + n] == es[k][r..r + n]
  {
    FrameAt(es, k);
    var f := Frames(es);
    var b := Start(es, k) + HEADER_LEN;
    assert f[b..b + |es[k]|] == es[k];
    assert f[b + r..b + r + n] == f[b..b + |es[k]|][r..r + n];
  }

  lemma {:induction false} FeedBodyOvershoot(s: ReaderState, es: seq<Bytes>, pos: nat, k: nat, c: Bytes, decrypt: Bytes -> Bytes)
    returns (k2: nat)
    requires AllFit(es) && At(s, es, pos, k) && s.waiting && s.bytesRead + |c| > |es[k]|
    requires |c| > 0 && pos + |c| <= |Frames(es)| && c == Frames(es)[pos..pos + |c|]
    requires !SplitsHeader(es, pos + |c|)
    ensures k <= k2 <= |es| && At(Feed(s, c, decrypt).state, es, pos + |c|, k2)
    ensures Feed(s, c, decrypt).ok && Feed(s, c, decrypt).out == Decrypted(es[k..k2], decrypt)
    decreases |c|, 0
  {
    var need := |es[k]| - s.bytesRead;
    OvershootPieces(s, es, pos, k, c);
    var rest := c[need..];
    k2 := FeedChunk(Cleared(s), es, Start(es, k + 1), k + 1, rest, decrypt);
    FeedOvershoot(s, c, need, decrypt);
    DecryptedStep(es, k, k2, decrypt);
  }

  /** readData on a chunk that completes the pending frame exactly. */
  lemma FeedExact(s: ReaderState, c: Bytes, decrypt: Bytes -> Bytes)
    requires Inv(s) && s.waiting && s.bytesRead + |c| == s.bytesToRead
    ensures Feed(s, c, decrypt) == FeedResult(true, Cleared(s), [decrypt(s.stash + c)])
  {
    assert s.bytesRead + |c| == s.bytesToRead;
  }

  /** readData on a chunk that runs past the pending frame: that frame, then the rest as a new chunk. */
  lemma FeedOvershoot(s: ReaderState, c: Bytes, need: nat, decrypt: Bytes -> Bytes)
    requires Inv(s) && s.waiting && need == s.bytesToRead - s.bytesRead && need < |c|
    ensures var after := Feed(Cleared(s), c[need..], decrypt);
      Feed(s, c, decrypt) == FeedResult(after.ok, after.state, [decrypt(s.stash + c[..need])] + after.out)
  {
    assert s.bytesRead + |c| > s.bytesToRead;
  }

  /** readData on a chunk that falls short of the pending frame: it is stashed. */
  lemma FeedShort(s: ReaderState, c: Bytes, decrypt: Bytes -> Bytes)
    requires Inv(s) && s.waiting && s.bytesRead + |c| < s.bytesToRead
    ensures Feed(s, c, decrypt) == FeedResult(true, ReaderState(true, s.bytesToRead, s.bytesRead + |c|, s.stash + c), [])
  {
    assert s.bytesRead + |c| < s.bytesToRead;
  }

  /** A chunk that overshoots the pending frame: the part that completes it, and the rest as a new frame. */
  lemma OvershootPieces(s: ReaderState, es: seq<Bytes>, pos: nat, k: nat, c: Bytes)
    requires AllFit(es) && At(s, es, pos, k) && s.waiting && s.bytesRead + |c| > |es[k]|
    requires pos + |c| <= |Frames(es)| && c == Frames(es)[pos..pos + |c|]
    ensures var need := |es[k]| - s.bytesRead;
      0 < need < |c| && s.stash + c[..need] == es[k] && Start(es, k + 1) == pos + need
      && c[need..] == Frames(es)[Start(es, k + 1)..pos + |c|]
      && At(Cleared(s), es, Start(es, k + 1), k + 1)
  {
    FrameAt(es, k);
    var f := Frames(es);
    var r := s.bytesRead;
    var need := |es[k]| - r;
    BodyBytes(es, k, r, need);
    assert c[..need] == f[pos..pos + need];
    assert s.stash + c[..need] == es[k];
  }

  // ---- properties of the decoder over a whole stream ----

  /** readData applied to each chunk of a connection in turn; an exception ends the connection's reads. */
  function FeedAll(s: ReaderState, chunks: seq<Bytes>, decrypt: Bytes -> Bytes): (r: FeedResult)
    requires Inv(s)
    ensures Inv(r.state)
    decreases |chunks|
  {
    if chunks == [] then FeedResult(true, s, [])
    else
      var first := Feed(s, chunks[0], decrypt);
      if !first.ok then first
      else
        var rest := FeedAll(first.state, chunks[1..], decrypt);
        FeedResult(rest.ok, rest.state, first.out + rest.out)
  }

  /**
   * The chunks, laid end to end from offset pos, are non-empty and none of them ends
   * inside a frame header.
   */
  ghost predicate GoodCuts(es: seq<Bytes>, pos: nat, chunks: seq<Bytes>)
    requires AllFit(es)
    decreases |chunks|
  {
    chunks != [] ==>
      |chunks[0]| > 0 && !SplitsHeader(es, pos + |chunks[0]|) && GoodCuts(es, pos + |chunks[0]|, chunks[1..])
  }

  lemma {:induction false} FeedChunks(s: ReaderState, es: seq<Bytes>, pos: nat, k: nat, chunks: seq<Bytes>, decrypt: Bytes -> Bytes)
    returns (k2: nat)
    requires AllFit(es) && At(s, es, pos, k) && GoodCuts(es, pos, chunks)
    requires pos + |Concat(chunks)| <= |Frames(es)| && Concat(chunks) == Frames(es)[pos..pos + |Concat(chunks)|]
    ensures k <= k2 <= |es| && At(FeedAll(s, chunks, decrypt).state, es, pos + |Concat(chunks)|, k2)
    ensures FeedAll(s, chunks, decrypt).ok && FeedAll(s, chunks, decrypt).out == Decrypted(es[k..k2], decrypt)
    decreases |chunks|
  {
    if chunks == [] {
      k2 := k;
    } else {
      var k1 := FeedFirstChunk(s, es, pos, k, chunks, decrypt);
      k2 := FeedChunks(Feed(s, chunks[0], decrypt).state, es, pos + |chunks[0]|, k1, chunks[1..], decrypt);
      ChunksCombine(s, chunks, es, k, k1, k2, decrypt);
    }
  }

  /** What the first chunk delivers followed by what the rest deliver is what all of them deliver. */
  lemma ChunksCombine(s: ReaderState, chunks: seq<Bytes>, es: seq<Bytes>, k: nat, k1: nat, k2: nat, decrypt: Bytes -> Bytes)
    requires Inv(s) && chunks != [] && k <= k1 <= k2 <= |es|
    requires Feed(s, chunks[0], decrypt).ok && Feed(s, chunks[0], decrypt).out == Decrypted(es[k..k1], decrypt)
    requires var rest := FeedAll(Feed(s, chunks[0], decrypt).state, chunks[1..], decrypt);
      rest.ok && rest.out == Decrypted(es[k1..k2], decrypt)
    ensures FeedAll(s, chunks, decrypt).ok && FeedAll(s, chunks, decrypt).out == Decrypted(es[k..k2], decrypt)
    ensures FeedAll(s, chunks, decrypt).state == FeedAll(Feed(s, chunks[0], decrypt).state, chunks[1..], decrypt).state
  {
    FeedAllStep(s, chunks, decrypt);
    DecryptedSplit(es, k, k1, k2, decrypt);
  }

  /** The first chunk of a well-cut sequence: FeedChunk, and what the remaining chunks then satisfy. */
  lemma FeedFirstChunk(s: ReaderState, es: seq<Bytes>, pos: nat, k: nat, chunks: seq<Bytes>, decrypt: Bytes -> Bytes)
    returns (k1: nat)
    requires AllFit(es) && At(s, es, pos, k) && GoodCuts(es, pos, chunks) && chunks != []
    requires pos + |Concat(chunks)| <= |Frames(es)| && Concat(chunks) == Frames(es)[pos..pos + |Concat(chunks)|]
    ensures k <= k1 <= |es| && At(Feed(s, chunks[0], decrypt).state, es, pos + |chunks[0]|, k1)
    ensures Feed(s, chunks[0], decrypt).ok && Feed(s, chunks[0], decrypt).out == Decrypted(es[k..k1], decrypt)
    ensures GoodCuts(es, pos + |chunks[0]|, chunks[1..])
    ensures |Concat(chunks)| == |chunks[0]| + |Concat(chunks[1..])|
    ensures Concat(chunks[1..]) == Frames(es)[pos + |chunks[0]|..pos + |Concat(chunks)|]
  {
    var c := chunks[0];
    var tail := Concat(chunks[1..]);
    assert Concat(chunks) == c + tail;
    SliceHalves(Frames(es), pos, c, tail);
    k1 := FeedChunk(s, es, pos, k, c, decrypt);
  }

  lemma DecryptedSplit(es: seq<Bytes>, k: nat, k1: nat, k2: nat, decrypt: Bytes -> Bytes)
    requires k <= k1 <= k2 <= |es|
    ensures Decrypted(es[k..k2], decrypt) == Decrypted(es[k..k1], decrypt) + Decrypted(es[k1..k2], decrypt)
  {
    assert es[k..k2] == es[k..k1] + es[k1..k2];
    DecryptedAppend(es[k..k1], es[k1..k2], decrypt);
  }

  lemma FeedAllStep(s: ReaderState, chunks: seq<Bytes>, decrypt: Bytes -> Bytes)
    requires Inv(s) && chunks != [] && Feed(s, chunks[0], decrypt).ok
    ensures FeedAll(s, chunks, decrypt).ok == FeedAll(Feed(s, chunks[0], decrypt).state, chunks[1..], decrypt).ok
    ensures FeedAll(s, chunks, decrypt).state == FeedAll(Feed(s, chunks[0], decrypt).state, chunks[1..], decrypt).state
    ensures FeedAll(s, chunks, decrypt).out
      == Feed(s, chunks[0], decrypt).out + FeedAll(Feed(s, chunks[0], decrypt).state, chunks[1..], decrypt).out
  {
  }

  lemma SliceHalves(f: Bytes, pos: nat, c: Bytes, tail: Bytes)
    requires pos + |c + tail| <= |f| && c + tail == f[pos..pos + |c + tail|]
    ensures c == f[pos..pos + |c|] && tail == f[pos + |c|..pos + |c| + |tail|]
  {
    assert (c + tail)[..|c|] == c;
    assert (c + tail)[|c|..] == tail;
  }

  /**
   * The decoder's promise: a connection whose inbound bytes are a sequence of frames,
   * however the network cut them into chunks, as long as no chunk ends inside an 8-byte
   * header, delivers every frame's decrypted body exactly once and in order, never
   * throws, and ends between frames.
   */
  lemma StreamDelivery(chunks: seq<Bytes>, es: seq<Bytes>, decrypt: Bytes -> Bytes)
    requires AllFit(es) && Concat(chunks) == Frames(es) && GoodCuts(es, 0, chunks)
    ensures FeedAll(Fresh, chunks, decrypt).ok
    ensures FeedAll(Fresh, chunks, decrypt).out == Decrypted(es, decrypt)
    ensures !FeedAll(Fresh, chunks, decrypt).state.waiting
  {
    assert es[..0] == [];
    assert Frames(es)[0..|Frames(es)|] == Frames(es);
    var k := FeedChunks(Fresh, es, 0, 0, chunks, decrypt);
    AtEnd(FeedAll(Fresh, chunks, decrypt).state, es, k);
    assert es[0..k] == es;
  }

  /** A decoder that has consumed the whole stream has delivered every frame and waits for none. */
  lemma AtEnd(s: ReaderState, es: seq<Bytes>, k: nat)
    requires AllFit(es) && At(s, es, |Frames(es)|, k)
    ensures !s.waiting && k == |es|
  {
    StartAll(es);
    if s.waiting {
      StartAfter(es, k + 1);
      FrameAt(es, k);
    } else if k < |es| {
      StartBefore(es, k);
    }
  }

  lemma {:induction false} StartAfter(es: seq<Bytes>, k: nat)
    requires AllFit(es) && k <= |es|
    ensures Start(es, k) <= Start(es, |es|)
    decreases |es| - k
  {
    if k < |es| {
      StartBefore(es, k);
    }
  }

  /** What the sending side writes for a sequence of payloads: one getWritableData frame each. */
  function WrittenStream(payloads: seq<Bytes>, encrypt: Bytes -> Bytes): (w: Bytes)
    requires forall i :: 0 <= i < |payloads| ==> |encrypt(payloads[i])| < TWO_63
  {
    if payloads == [] then []
    else GetWritableData(payloads[0], encrypt) + WrittenStream(payloads[1..], encrypt)
  }

  /** The encrypted bodies of a sequence of payloads. */
  function Encrypted(payloads: seq<Bytes>, encrypt: Bytes -> Bytes): (es: seq<Bytes>)
    ensures |es| == |payloads|
    ensures forall i :: 0 <= i < |es| ==> es[i] == encrypt(payloads[i])
  {
    if payloads == [] then [] else [encrypt(payloads[0])] + Encrypted(payloads[1..], encrypt)
  }

  lemma {:induction false} WrittenStreamFrames(payloads: seq<Bytes>, encrypt: Bytes -> Bytes)
    requires forall i :: 0 <= i < |payloads| ==> |encrypt(payloads[i])| < TWO_63
    ensures AllFit(Encrypted(payloads, encrypt))
    ensures WrittenStream(payloads, encrypt) == Frames(Encrypted(payloads, encrypt))
  {
    if payloads != [] {
      WrittenStreamFrames(payloads[1..], encrypt);
      assert Encrypted(payloads, encrypt)[1..] == Encrypted(payloads[1..], encrypt);
    }
  }

  lemma {:induction false} DecryptedEncrypted(payloads: seq<Bytes>, encrypt: Bytes -> Bytes, decrypt: Bytes -> Bytes)
    requires forall m :: decrypt(encrypt(m)) == m
    ensures Decrypted(Encrypted(payloads, encrypt), decrypt) == payloads
  {
    if payloads != [] {
      DecryptedEncrypted(payloads[1..], encrypt, decrypt);
      assert Encrypted(payloads, encrypt)[1..] == Encrypted(payloads[1..], encrypt);
    }
  }

  /**
   * End to end: when decryption undoes encryption, the payloads a peer writes through
   * getWritableData reach the receiving readData's callback unchanged and in order,
   * whatever chunking the network applies outside the headers.
   */
  lemma PayloadsRoundTrip(payloads: seq<Bytes>, chunks: seq<Bytes>, encrypt: Bytes -> Bytes, decrypt: Bytes -> Bytes)
    requires forall m :: decrypt(encrypt(m)) == m
    requires forall i :: 0 <= i < |payloads| ==> |encrypt(payloads[i])| < TWO_63
    requires Concat(chunks) == WrittenStream(payloads, encrypt)
    requires AllFit(Encrypted(payloads, encrypt)) && GoodCuts(Encrypted(payloads, encrypt), 0, chunks)
    ensures FeedAll(Fresh, chunks, decrypt).ok
    ensures FeedAll(Fresh, chunks, decrypt).out == payloads
  {
    WrittenStreamFrames(payloads, encrypt);
    StreamDelivery(chunks, Encrypted(payloads, encrypt), decrypt);
    DecryptedEncrypted(payloads, encrypt, decrypt);
  }

  /** Decrypting the encrypted bodies gives, position by position, what the cipher pair makes of each payload. */
  lemma {:induction false} DecryptedEncryptedAny(payloads: seq<Bytes>, encrypt: Bytes -> Bytes, decrypt: Bytes -> Bytes)
    ensures |Decrypted(Encrypted(payloads, encrypt), decrypt)| == |payloads|
    ensures forall i :: 0 <= i < |payloads| ==>
      Decrypted(Encrypted(payloads, encrypt), decrypt)[i] == decrypt(encrypt(payloads[i]))
  {
    if payloads != [] {
      DecryptedEncryptedAny(payloads[1..], encrypt, decrypt);
      assert Encrypted(payloads, encrypt)[1..] == Encrypted(payloads[1..], encrypt);
    }
  }

  /**
   * crypt.decrypt without `needBuffer` returns its plaintext decoded as UTF-8 text, which is
   * then written as UTF-8 again. With such a cipher pair, the payload delivered for frame i
   * is payload i after a UTF-8 decode and re-encode, whatever the chunking outside the headers.
   */
  lemma TextCipherDelivery(payloads: seq<Bytes>, chunks: seq<Bytes>, encrypt: Bytes -> Bytes, decrypt: Bytes -> Bytes)
    requires forall m :: decrypt(encrypt(m)) == Utf8.Encode(Utf8.Decode(m))
    requires forall i :: 0 <= i < |payloads| ==> |encrypt(payloads[i])| < TWO_63
    requires Concat(chunks) == WrittenStream(payloads, encrypt)
    requires AllFit(Encrypted(payloads, encrypt)) && GoodCuts(Encrypted(payloads, encrypt), 0, chunks)
    ensures FeedAll(Fresh, chunks, decrypt).ok
    ensures |FeedAll(Fresh, chunks, decrypt).out| == |payloads|
    ensures forall i :: 0 <= i < |payloads| ==>
      FeedAll(Fresh, chunks, decrypt).out[i] == Utf8.Encode(Utf8.Decode(payloads[i]))
  {
    WrittenStreamFrames(payloads, encrypt);
    StreamDelivery(chunks, Encrypted(payloads, encrypt), decrypt);
    DecryptedEncryptedAny(payloads, encrypt, decrypt);
  }

  /** With the text cipher, payloads that are UTF-8 encoded text arrive unchanged. */
  lemma TextPayloadsRoundTrip(texts: seq<string>, payloads: seq<Bytes>, chunks: seq<Bytes>,
                              encrypt: Bytes -> Bytes, decrypt: Bytes -> Bytes)
    requires |texts| == |payloads| && forall i :: 0 <= i < |texts| ==> payloads[i] == Utf8.Encode(texts[i])
    requires forall m :: decrypt(encrypt(m)) == Utf8.Encode(Utf8.Decode(m))
    requires forall i :: 0 <= i < |payloads| ==> |encrypt(payloads[i])| < TWO_63
    requires Concat(chunks) == WrittenStream(payloads, encrypt)
    requires AllFit(Encrypted(payloads, encrypt)) && GoodCuts(Encrypted(payloads, encrypt), 0, chunks)
    ensures FeedAll(Fresh, chunks, decrypt).ok
    ensures FeedAll(Fresh, chunks, decrypt).out == payloads
  {
    TextCipherDelivery(payloads, chunks, encrypt, decrypt);
    forall i | 0 <= i < |texts|
      ensures Utf8.Encode(Utf8.Decode(payloads[i])) == payloads[i]
    {
      Utf8.DecodeEncode(texts[i]);
    }
  }

  /** A payload that is not UTF-8, such as the single byte 0xFF, comes back as U+FFFD's three bytes. */
  lemma BinaryPayloadAltered()
    ensures Utf8.Encode(Utf8.Decode([0xFF])) == [0xEF, 0xBF, 0xBD]
  {
  }
}
