/**
 * Values shared by every module of the model: bytes, the JavaScript exceptions the
 * proxy can raise, and the Option/Result wrappers used for `undefined` and `throw`.
 */
module JsBase {

  /** One octet of a Node.js Buffer. */
  newtype byte = x: int | 0 <= x < 256

  type Bytes = seq<byte>

  /** A value that may be `undefined` in the source. */
  datatype Option<+T> = None | Some(value: T)

  /** The kinds of exception the modelled code can throw. */
  datatype JsError =
    | RangeError       // buffer bounds, integer ranges, BigInt(NaN)
    | TypeError        // a property read on `undefined` or `null`
    | ReferenceError   // an undeclared variable
    | ProtocolError(reason: string)  // a string thrown by the SOCKS5 handler

  /** The outcome of a call that either returns a value or throws. */
  datatype Result<+T> = Ok(value: T) | Throw(error: JsError) {
    predicate IsFailure() { Throw? }
    function PropagateFailure<U>(): Result<U>
      requires Throw?
    {
      Throw(error)
    }
    function Extract(): T
      requires Ok?
    {
      value
    }
  }

  /** 2 to the power k. */
  function Pow2(k: nat): (r: nat)
    ensures r >= 1
  {
    if k == 0 then 1 else 2 * Pow2(k - 1)
  }

  /** 256 to the power k, the range of a k-byte unsigned integer. */
  function Pow256(k: nat): (r: nat)
    ensures r >= 1
  {
    if k == 0 then 1 else 256 * Pow256(k - 1)
  }

  lemma {:induction false} Pow2Add(a: nat, b: nat)
    ensures Pow2(a + b) == Pow2(a) * Pow2(b)
  {
    if a > 0 {
      Pow2Add(a - 1, b);
    }
  }

  lemma {:induction false} Pow256IsPow2(k: nat)
    ensures Pow256(k) == Pow2(8 * k)
  {
    if k > 0 {
      Pow256IsPow2(k - 1);
      Pow2Add(8, 8 * (k - 1));
      assert Pow2(8) == 256;
    }
  }
}
