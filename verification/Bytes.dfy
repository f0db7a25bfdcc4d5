/** Byte strings, 32-byte words, addresses, and what it means to break a hash function. */
module Bytes {

  /** Go strings and byte slices are sequences of bytes.  A byte is written as the character with
      that code, so that the program's string constants can be written as literals. */
  type Byte = c: char | c as int < 256 witness '0'
  type Bytes = seq<Byte>

  /** A node's peer id, as text. */
  type Host = Bytes

  const NUL: Byte := 0 as char

  function Zeros(n: nat): (z: Bytes)
    ensures |z| == n && forall i :: 0 <= i < n ==> z[i] == NUL
  {
    seq(n, i => NUL)
  }

  type Word = w: Bytes | |w| == 32 witness Zeros(32)
  const ZERO_WORD: Word := Zeros(32)

  type Address = a: Bytes | |a| == 20 witness Zeros(20)
  const ZERO_ADDRESS: Address := Zeros(20)

  /** Keccak-256 is a parameter everywhere: nothing but its type is assumed. */
  type Hash = Bytes -> Word

  /** What would break a hash: two inputs with one digest, or an input whose digest is the zero word. */
  datatype Evidence = Collision(x: Bytes, y: Bytes) | ZeroPreimage(x: Bytes)

  ghost predicate Refutes(H: Hash, e: Evidence) {
    match e
    case Collision(x, y) => x != y && H(x) == H(y)
    case ZeroPreimage(x) => H(x) == ZERO_WORD
  }
}
