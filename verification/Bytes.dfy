/**
  Bytes, buffers and multi-buffers, as core/common/buf lays them out: a Buffer is
  at most `SIZE` bytes and a MultiBuffer is a list of buffers.
 */
module Bytes {
  import opened Collections

  /** core/common/buf/buffer.go:13 */
  const SIZE: int := 8192

  type byte = x: int | 0 <= x < 256

  /** The content of a MultiBuffer, buffer after buffer. */
  function Flatten(mb: seq<seq<byte>>): (s: seq<byte>) {
    if mb == [] then [] else mb[0] + Flatten(mb[1..])
  }

  /** A big-endian 16-bit field, `hi << 8 | lo`. */
  function U16(hi: byte, lo: byte): (n: int)
    ensures 0 <= n < 65536
  {
    hi * 256 + lo
  }

  function High(n: int): (b: byte)
    requires 0 <= n < 65536
  {
    n / 256
  }

  function Low(n: int): (b: byte) {
    n % 256
  }

  lemma {:induction false} U16OfHalves(n: int)
    requires 0 <= n < 65536
    ensures U16(High(n), Low(n)) == n
  {
  }

  lemma {:induction false} FlattenAppend(a: seq<seq<byte>>, b: seq<seq<byte>>)
    ensures Flatten(a + b) == Flatten(a) + Flatten(b)
  {
    if a == [] {
      assert a + b == b;
    } else {
      FlattenAppend(a[1..], b);
      Assoc(a[0], Flatten(a[1..]), Flatten(b));
      assert (a + b)[1..] == a[1..] + b;
    }
  }
}
