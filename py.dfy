/** The slice of Python's value model that the SOCKS5 codec touches:
    bytes, the few kinds of object its functions return, the exceptions
    they raise, and sequence slicing with Python's clamping rules. */
module Py {

  /** One octet of a Python `bytes` object. */
  type byte = x: int | 0 <= x < 256

  /** The Python objects the codec produces or consumes. */
  datatype Obj =
    | Int(i: int)
    | Bytes(b: seq<byte>)
    | Str(s: string)
    | Tuple(items: seq<Obj>)

  /** The exceptions the codec can raise. `Exception` is the bare
      `Exception("data format invalid: ...")` of the request decoders. */
  datatype Exc =
    | StructError
    | TypeError
    | AttributeError
    | ValueError
    | UnboundLocalError
    | Exception

  /** A call that either returns a value or raises. */
  datatype Result<+T> = Ok(value: T) | Err(exc: Exc) {
    predicate IsFailure() { Err? }

    function PropagateFailure<U>(): Result<U>
      requires Err?
    {
      Err(exc)
    }

    function Extract(): T
      requires Ok?
    {
      value
    }
  }

  datatype Option<+T> = None | Some(value: T)

  /** A call that returns `None` or raises. */
  datatype Outcome = Pass | Fail(exc: Exc) {
    predicate IsFailure() { Fail? }

    function PropagateFailure<U>(): Result<U>
      requires Fail?
    {
      Err(exc)
    }
  }

  /** `s[lo:hi]` for non-negative bounds: both bounds are clamped to the
      length, and an empty slice results when `lo >= hi`. */
  function Slice<T>(s: seq<T>, lo: nat, hi: nat): (r: seq<T>)
    ensures lo <= hi <= |s| ==> r == s[lo..hi]
    ensures hi <= lo || |s| <= lo ==> r == []
    ensures lo < hi && lo < |s| < hi ==> r == s[lo..]
  {
    if hi <= lo || |s| <= lo then []
    else if hi <= |s| then s[lo..hi]
    else s[lo..]
  }

  /** `s[lo:]` for a non-negative bound. */
  function SliceFrom<T>(s: seq<T>, lo: nat): (r: seq<T>)
    ensures lo <= |s| ==> r == s[lo..] && s[..lo] + r == s
    ensures |s| <= lo ==> r == []
  {
    if |s| <= lo then [] else s[lo..]
  }

  /** The integers carried by a sequence of `Int` objects. */
  function Ints(xs: seq<Obj>): (r: seq<int>)
    requires forall k :: 0 <= k < |xs| ==> xs[k].Int?
    ensures |r| == |xs|
    ensures forall k :: 0 <= k < |xs| ==> xs[k] == Int(r[k])
  {
    seq(|xs|, k requires 0 <= k < |xs| => xs[k].i)
  }

  /** Each integer as an `Int` object. */
  function IntObjs(xs: seq<int>): (r: seq<Obj>)
    ensures |r| == |xs|
    ensures forall k :: 0 <= k < |xs| ==> r[k] == Int(xs[k])
  {
    seq(|xs|, k requires 0 <= k < |xs| => Int(xs[k]))
  }
}
