/** Small shared vocabulary: optional values, results with an error, and bytes. */
module Prelude {

  /** A value that may be absent (Go's nil pointer / "ok == false"). */
  datatype Option<+T> = None | Some(value: T)

  /** A value or an error (Go's `(T, error)` pair). */
  datatype Result<+T, +E> = Ok(value: T) | Err(error: E)

  /** One octet, as Go's `byte`. */
  type byte = b: int | 0 <= b < 256

  /** Moving the head of a non-empty sequence onto the end of an accumulator. */
  lemma AppendHead<T>(acc: seq<T>, xs: seq<T>)
    requires |xs| > 0
    ensures acc + [xs[0]] + xs[1..] == acc + xs
    ensures |xs| == 1 ==> acc + [xs[0]] == acc + xs
  {
    assert xs == [xs[0]] + xs[1..];
  }
}
