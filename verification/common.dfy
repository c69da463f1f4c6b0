/** Shared vocabulary of the model: failure-carrying results, bytes, and the
    handful of Python built-in semantics (truncating `int()`, slicing with a
    possibly negative end) that several core files rely on. */
module Common {

  /** The source's `Optional[...]`: a missing value is `None`. */
  datatype Option<T> = None | Some(value: T)

  /** The exceptions the modelled code can raise, by kind. */
  datatype Error =
    | ZeroDivision          // Python `ZeroDivisionError`
    | RangeStepZero         // `range(...)` called with a zero step (`ValueError`)
    | AssertionFailed(msg: string)
    | ValueError(msg: string)
    | TypeError(msg: string)
    | Raised(msg: string)   // a plain `Exception(msg)`

  /** A computation that either returns a value or raises. */
  datatype Result<T> = Success(value: T) | Failure(error: Error)

  /** The two audio encodings the core distinguishes. */
  datatype AudioEncoding = Linear16 | Mulaw

  /** One unsigned octet of a Python `bytes` object. */
  newtype byte = b: int | 0 <= b < 256

  /** One sample of a numpy `int16` array. */
  newtype int16 = x: int | -0x8000 <= x < 0x8000

  function Min(a: int, b: int): int { if a <= b then a else b }

  function Max(a: int, b: int): int { if a >= b then a else b }

  /** Python's `int(x)` on a float: truncation toward zero (not `Floor`). */
  function TruncToZero(x: real): (n: int)
    ensures x >= 0.0 ==> n as real <= x < n as real + 1.0
    ensures x < 0.0 ==> n as real - 1.0 < x <= n as real
  {
    if x >= 0.0 then x.Floor else -((-x).Floor)
  }

  /** Python's `s[:n]`: a negative `n` counts from the end, and an `n` past
      either end is clamped. The result is always a prefix of `s`. */
  function SliceTo<T>(s: seq<T>, n: int): (r: seq<T>)
    ensures r <= s
    ensures 0 <= n ==> |r| == Min(n, |s|)
    ensures n < 0 ==> |r| == Max(0, |s| + n)
  {
    if 0 <= n then s[..Min(n, |s|)]
    else if |s| + n <= 0 then []
    else s[..|s| + n]
  }

  /** `b"".join(parts)`: the concatenation of a list of byte strings. */
  function Join<T>(parts: seq<seq<T>>): seq<T>
  {
    if |parts| == 0 then [] else parts[0] + Join(parts[1..])
  }

  lemma {:induction false} JoinAppend<T>(parts: seq<seq<T>>, last: seq<T>)
    ensures Join(parts + [last]) == Join(parts) + last
  {
    if |parts| == 0 {
      assert parts + [last] == [last];
    } else {
      assert (parts + [last])[1..] == parts[1..] + [last];
      JoinAppend(parts[1..], last);
    }
  }

  lemma {:induction false} JoinConcat<T>(a: seq<seq<T>>, b: seq<seq<T>>)
    ensures Join(a + b) == Join(a) + Join(b)
  {
    if |a| == 0 {
      assert a + b == b;
    } else {
      assert (a + b)[1..] == a[1..] + b;
      JoinConcat(a[1..], b);
    }
  }
}
