/** Bytes, digests and the small result types shared by every module. */
module Basics {

  type byte = x: int | 0 <= x < 256

  type Bytes = seq<byte>

  /** Text is kept as its UTF-8 encoding: concatenation, equality and code-point
      order of text are concatenation, equality and byte order of the encodings. */
  type Text = Bytes

  /** The bytes of an ASCII name. */
  function Ascii(name: string): Text
    requires forall i :: 0 <= i < |name| ==> name[i] < 128 as char
  {
    seq(|name|, i requires 0 <= i < |name| => name[i] as int)
  }

  /** The result of SHA-256. */
  type Digest = b: Bytes | |b| == 32 witness seq(32, _ => 0)

  /** SHA-256 is never interpreted: every result holds for every function of this type. */
  type Hash = Bytes -> Digest

  /** A claim "or the hash collides" always names the two preimages: that some pair collides is
      true of every function into 32 bytes and says nothing. */
  ghost predicate Collides(h: Hash, x: Bytes, y: Bytes) {
    x != y && h(x) == h(y)
  }

  datatype Option<+T> = None | Some(value: T)

  datatype Result<+T, +E> = Success(value: T) | Failure(error: E) {
    predicate IsFailure() {
      Failure?
    }

    function PropagateFailure<U>(): Result<U, E>
      requires Failure?
    {
      Failure(error)
    }

    function Extract(): T
      requires Success?
    {
      value
    }
  }
}
