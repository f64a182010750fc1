/**
 * The Node.js Buffer operations the proxy uses: indexing (undefined past the end),
 * slicing with clamped and negative offsets, and fixed-width big- and little-endian
 * integer reads and writes.
 */
module JsBuffer {
  import opened JsBase

  /** `buf[i]`, which is undefined outside the buffer. */
  function ByteAt(b: Bytes, i: int): (r: Option<byte>)
    ensures r.Some? <==> 0 <= i < |b|
    ensures r.Some? ==> r.value == b[i]
  {
    if 0 <= i < |b| then Some(b[i]) else None
  }

  /** A slice offset as Buffer.subarray normalises it: negative counts from the end. */
  function SliceIndex(x: int, n: nat): (r: nat)
    ensures r <= n
  {
    if x < 0 then (if n + x < 0 then 0 else n + x) else if x > n then n else x
  }

  /** `buf.slice(start, end)`. */
  function Slice(b: Bytes, start: int, end: int): (r: Bytes)
    ensures |r| <= |b|
  {
    var i := SliceIndex(start, |b|);
    var j := SliceIndex(end, |b|);
    if i <= j then b[i..j] else []
  }

  /** `buf.slice(start)`. */
  function SliceFrom(b: Bytes, start: int): (r: Bytes)
    ensures r == b[SliceIndex(start, |b|)..]
  {
    Slice(b, start, |b|)
  }

  /** `buf.includes(x)` for a byte value. */
  predicate Includes(b: Bytes, x: byte) {
    x in b
  }

  // ---- unsigned integers of any width ----

  /** The unsigned big-endian value of a byte string. */
  function BE(b: Bytes): (v: nat)
    ensures v < Pow256(|b|)
  {
    if |b| == 0 then 0 else BE(b[..|b| - 1]) * 256 + b[|b| - 1] as nat
  }

  /** The unsigned little-endian value of a byte string. */
  function LE(b: Bytes): (v: nat)
    ensures v < Pow256(|b|)
  {
    if |b| == 0 then 0 else b[0] as nat + 256 * LE(b[1..])
  }

  /** The k-byte big-endian encoding of v modulo 256^k. */
  function ToBE(v: nat, k: nat): (r: Bytes)
    ensures |r| == k
  {
    if k == 0 then [] else ToBE(v / 256, k - 1) + [(v % 256) as byte]
  }

  /** The k-byte little-endian encoding of v modulo 256^k. */
  function ToLE(v: nat, k: nat): (r: Bytes)
    ensures |r| == k
  {
    if k == 0 then [] else [(v % 256) as byte] + ToLE(v / 256, k - 1)
  }

  lemma {:induction false} BEToBE(v: nat, k: nat)
    requires v < Pow256(k)
    ensures BE(ToBE(v, k)) == v
  {
    if k > 0 {
      var r := ToBE(v, k);
      assert r[..k - 1] == ToBE(v / 256, k - 1);
      BEToBE(v / 256, k - 1);
    }
  }

  lemma {:induction false} LEToLE(v: nat, k: nat)
    requires v < Pow256(k)
    ensures LE(ToLE(v, k)) == v
  {
    if k > 0 {
      var r := ToLE(v, k);
      assert r[1..] == ToLE(v / 256, k - 1);
      LEToLE(v / 256, k - 1);
    }
  }

  lemma {:induction false} ToLELE(b: Bytes)
    ensures ToLE(LE(b), |b|) == b
  {
    if |b| > 0 {
      ToLELE(b[1..]);
      assert LE(b) / 256 == LE(b[1..]);
      assert LE(b) % 256 == b[0] as nat;
    }
  }

  // ---- the fixed-width reads and writes the source calls ----

  const TWO_63: int := 0x8000_0000_0000_0000
  const TWO_64: int := 0x1_0000_0000_0000_0000

  /** `buf.writeBigInt64LE(n)`: the two's-complement little-endian bytes of n. */
  function Int64LE(n: int): (r: Bytes)
    requires -TWO_63 <= n < TWO_63
    ensures |r| == 8
  {
    ToLE(if n < 0 then n + TWO_64 else n, 8)
  }

  /** `buf.readBigInt64LE()` of eight bytes. */
  function ReadInt64LE(h: Bytes): (n: int)
    requires |h| == 8
    ensures -TWO_63 <= n < TWO_63
  {
    assert Pow256(8) == TWO_64;
    var u := LE(h);
    if u >= TWO_63 then u - TWO_64 else u
  }

  /** Reading back the 64-bit length header returns the length written into it. */
  lemma Int64LERoundTrip(n: int)
    requires -TWO_63 <= n < TWO_63
    ensures ReadInt64LE(Int64LE(n)) == n
  {
    assert Pow256(8) == TWO_64;
    LEToLE(if n < 0 then n + TWO_64 else n, 8);
  }

  /**
   * `buf.readInt16BE()` at offset 0, which throws on fewer than two bytes: the first two
   * bytes read as a two's-complement big-endian integer, negative when the top bit is set.
   */
  function ReadInt16BE(b: Bytes): (r: Result<int>)
    ensures r.Ok? <==> |b| >= 2
    ensures r.Ok? ==> -32768 <= r.value < 32768
    ensures r.Ok? ==> r.value % 65536 == BE(b[..2]) && (r.value < 0 <==> b[0] >= 0x80)
  {
    if |b| < 2 then Throw(RangeError)
    else
      var u := b[0] as int * 256 + b[1] as int;
      assert BE(b[..2]) == u by {
        assert b[..2][..1] == [b[0]];
        assert [b[0]][..0] == [];
      }
      Ok(if u >= 32768 then u - 65536 else u)
  }

  /** `buf.writeInt16BE(v)` into a fresh two-byte buffer, which throws outside int16. */
  function WriteInt16BE(v: int): (r: Result<Bytes>)
    ensures r.Ok? <==> -32768 <= v < 32768
    ensures r.Ok? ==> |r.value| == 2 && ReadInt16BE(r.value) == Ok(v)
  {
    if v < -32768 || v >= 32768 then Throw(RangeError)
    else
      var u := if v < 0 then v + 65536 else v;
      Ok([(u / 256) as byte, (u % 256) as byte])
  }

  /** Writing back the value readInt16BE reads gives the two bytes it was read from. */
  lemma Int16BERoundTrip(b: Bytes)
    requires |b| >= 2
    ensures WriteInt16BE(ReadInt16BE(b).value) == Ok(b[..2])
  {
    var v := ReadInt16BE(b).value;
    var u := b[0] as int * 256 + b[1] as int;
    assert (if v < 0 then v + 65536 else v) == u;
    assert u / 256 == b[0] as int && u % 256 == b[1] as int;
    assert WriteInt16BE(v).value == [b[0], b[1]];
    assert b[..2] == [b[0], b[1]];
  }

  /** `buf.writeUInt16BE(v)` into a fresh two-byte buffer, which throws outside uint16. */
  function WriteUInt16BE(v: int): (r: Result<Bytes>)
    ensures r.Ok? <==> 0 <= v < 65536
    ensures r.Ok? ==> |r.value| == 2 && BE(r.value) == v
  {
    if v < 0 || v >= 65536 then Throw(RangeError)
    else
      var r := [(v / 256) as byte, (v % 256) as byte];
      assert r[..1] == [(v / 256) as byte];
      Ok(r)
  }
}
