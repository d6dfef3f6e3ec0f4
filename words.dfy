/** Machine words of the ESP32 target: bytes and unsigned 32-bit integers.
    `uint32_t` arithmetic wraps modulo 2^32; the model writes every such wrap
    out with `Wrap`, since Dafny's integers are unbounded. */
module Words {

  type Byte = bv8

  const U32: int := 0x1_0000_0000

  /** A value of C's `uint32_t`. */
  type u32 = x: int | 0 <= x < 0x1_0000_0000

  /** The result of a `uint32_t` addition, subtraction or multiplication whose
      mathematical value is `x`. Dafny's `%` is Euclidean, so a negative
      difference wraps the way unsigned subtraction does. */
  function Wrap(x: int): (w: u32)
    ensures 0 <= x < U32 ==> w == x
    ensures -U32 < x < 0 ==> w == x + U32
  {
    x % U32
  }

  /** Converting a byte to an integer and back is the identity. */
  lemma ByteToIntToByte(b: Byte)
    ensures 0 <= b as int < 256 && (b as int) as Byte == b
  {
  }

  /** The byte whose unsigned value is `x`, counted up from 0. The model
      converts integers to bytes only this way: the solver does not settle
      the value of a direct `x as Byte` cast within the resource limit. */
  function ByteOf(x: nat): Byte
    requires x < 256
  {
    if x == 0 then 0 else ByteOf(x - 1) + 1
  }

  lemma ByteInc(b: Byte)
    requires b as int < 255
    ensures (b + 1) as int == b as int + 1
  {
  }

  lemma {:induction false} ByteOfValue(x: nat)
    requires x < 256
    ensures ByteOf(x) as int == x
  {
    if x > 0 {
      ByteOfValue(x - 1);
      ByteInc(ByteOf(x - 1));
    }
  }

  lemma ByteOfByte(b: Byte)
    ensures ByteOf(b as int) == b
  {
    ByteToIntToByte(b);
    ByteOfValue(b as int);
    ByteToIntToByte(ByteOf(b as int));
  }
}
