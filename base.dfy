/**
 * Values shared by every module of the model. A Go `string` and a Go `[]byte`
 * are both sequences of bytes: `len`, indexing and slicing count bytes, so the
 * model represents every Go string as a `GoString`, a sequence of bytes.
 */
module Base {
  newtype byte = x: int | 0 <= x < 256

  type Bytes = seq<byte>

  /** A Go `string`. */
  type GoString = Bytes

  datatype Option<+T> = None | Some(value: T)

  datatype Result<+T, +E> = Ok(value: T) | Err(error: E)

  /** The bytes of a Go string literal written in ASCII. */
  function Lit(s: string): (r: GoString)
    ensures |r| == |s|
    ensures forall i :: 0 <= i < |s| ==> r[i] as int == s[i] as int % 256
  {
    seq(|s|, i requires 0 <= i < |s| => (s[i] as int % 256) as byte)
  }

  /** `strings.HasPrefix(s, prefix)`. */
  predicate HasPrefix(s: GoString, prefix: GoString) {
    |prefix| <= |s| && s[..|prefix|] == prefix
  }

  /** `bytes.Repeat([]byte{0}, n)`. */
  function Zeros(n: nat): (r: Bytes)
    ensures |r| == n
    ensures forall i :: 0 <= i < n ==> r[i] == 0
  {
    seq(n, _ => 0)
  }

  /** An ASCII decimal digit `0`-`9`. */
  predicate IsDigit(b: byte) {
    48 <= b <= 57
  }

  predicate AllDigits(s: GoString) {
    forall i :: 0 <= i < |s| ==> IsDigit(s[i])
  }
}
