/**
 * Constants, types and encodings of the Tool module's public header:
 * the buffer size, the CRC length cap, the status-flag bits, the CRC seed
 * and polynomial, and the numeric values of the operating modes.
 */
module ToolDefs {

  /** C `uint8_t` and `uint32_t`, as ranges of mathematical integers. */
  type u8 = x: int | 0 <= x < 0x100
  type u32 = x: int | 0 <= x < 0x1_0000_0000

  /** Number of byte slots in the ring buffer. */
  const Size: nat := 64
  /** Largest number of bytes the CRC routine processes in one call. */
  const MaxCrcLen: nat := 256

  /** Status-flag bits: initialised (bit 0), error (bit 1), overflow
      (bit 2), checksum anomaly (bit 3). */
  const INIT: bv32 := 0x1
  const ERR: bv32 := 0x2
  const OVF: bv32 := 0x4
  const UDF: bv32 := 0x8

  /** Setting a flag leaves every bit outside it as it was. */
  lemma SetKeepsOthers(st: bv32, f: bv32, g: bv32)
    requires f & g == 0
    ensures (st | f) & g == st & g
  {
  }

  /** Clearing a flag leaves every bit outside it as it was. */
  lemma ClearKeepsOthers(st: bv32, f: bv32, g: bv32)
    requires f & g == 0
    ensures (st & !f) & g == st & g
  {
  }

  /** Setting a flag that is already set changes nothing. */
  lemma SetTwice(st: bv32, f: bv32)
    ensures (st | f) | f == st | f
  {
  }

  /** Clearing a flag that is already clear changes nothing. */
  lemma ClearTwice(st: bv32, f: bv32)
    ensures (st & !f) & !f == st & !f
  {
  }

  /** Reflected CRC-32 seed and polynomial. */
  const CrcInit: bv32 := 0xFFFF_FFFF
  const CrcPoly: bv32 := 0xEDB8_8320

  /** The values of the mode enumeration. The mode is stored as an `int`
      because a C enumeration object can hold values outside the enumerators. */
  const Idle: int := 0
  const Run: int := 1
  const Diag: int := 2

  predicate IsMode(m: int) {
    m == Idle || m == Run || m == Diag
  }

  /** A written-or-not output byte: `None` when nothing was stored through
      the caller's pointer. */
  datatype Option<T> = None | Some(value: T)
}
