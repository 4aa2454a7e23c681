/** Fixed-width integers of the wire formats, the Option type, and a law of sequences. */
module Octets {

  type byte = b: int | 0 <= b < 0x100
  type u16 = n: int | 0 <= n < 0x1_0000

  datatype Option<+T> = None | Some(value: T)

  /** The value of a big-endian two-byte field. */
  function Join(hi: byte, lo: byte): u16 {
    hi * 0x100 + lo
  }

  lemma Concat<T>(u: seq<T>, v: seq<T>, w: seq<T>)
    ensures (u + v) + w == u + (v + w)
    ensures u + [] == u
  {
  }
}
