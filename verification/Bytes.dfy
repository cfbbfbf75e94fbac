/** Bytes, the big-endian 16-bit fields of the wire formats, and the result types every codec uses. */
module Bytes {

  type byte = b: int | 0 <= b < 0x100

  type uint16 = n: int | 0 <= n < 0x1_0000

  datatype Option<+T> = None | Some(value: T)

  /** A value, or the error the source returns in its place. */
  datatype Result<+T, +E> = Ok(value: T) | Err(error: E) {
    predicate IsFailure() {
      Err?
    }

    function PropagateFailure<U>(): Result<U, E>
      requires Err?
    {
      Err(error)
    }

    function Extract(): T
      requires Ok?
    {
      value
    }
  }

  /** binary.BigEndian.Uint16 */
  function ReadUint16(hi: byte, lo: byte): uint16 {
    hi * 0x100 + lo
  }

  /** binary.BigEndian.PutUint16 */
  function WriteUint16(n: uint16): seq<byte> {
    [n / 0x100, n % 0x100]
  }

  lemma WriteInvertsRead(hi: byte, lo: byte)
    ensures WriteUint16(ReadUint16(hi, lo)) == [hi, lo]
  {
  }

  lemma ReadInvertsWrite(n: uint16)
    ensures |WriteUint16(n)| == 2 && ReadUint16(WriteUint16(n)[0], WriteUint16(n)[1]) == n
  {
  }

  /** Go's conversion of a non-negative int to uint16. */
  function TruncateToUint16(n: nat): uint16 {
    n % 0x1_0000
  }

  /** Go's conversion of a non-negative int to byte. */
  function TruncateToByte(n: nat): byte {
    n % 0x100
  }

  lemma Associates<T>(x: seq<T>, y: seq<T>, z: seq<T>)
    ensures (x + y) + z == x + (y + z)
  {
  }
}
