/**
 * The bounded CRC-32 routine: the reflected CRC-32 of IEEE 802.3
 * (polynomial 0xEDB88320, processed least significant bit first, register
 * seeded with and finally XORed by 0xFFFFFFFF), over at most 256 bytes.
 */
module Crc {
  import opened ToolDefs

  /** One step of the bitwise division: shift right, XOR the polynomial in
      when the bit shifted out was 1. */
  function ShiftBit(c: bv32): (r: bv32) {
    if c & 1 != 0 then (c >> 1) ^ CrcPoly else c >> 1
  }

  /** `n` successive division steps. */
  function ShiftBits(c: bv32, n: nat): (r: bv32) {
    if n == 0 then c else ShiftBit(ShiftBits(c, n - 1))
  }

  /** Feed one byte into the register. */
  function UpdateByte(c: bv32, b: bv8): (r: bv32) {
    ShiftBits(c ^ (b as bv32), 8)
  }

  /** The register after feeding the bytes of `s`, in order, starting from `c`. */
  function Register(c: bv32, s: seq<bv8>): (r: bv32) {
    if |s| == 0 then c else UpdateByte(Register(c, s[..|s| - 1]), s[|s| - 1])
  }

  /** The standard CRC-32 of a message. */
  function Crc32(s: seq<bv8>): (r: bv32) {
    Register(CrcInit, s) ^ 0xFFFF_FFFF
  }

  /** The number of bytes the routine processes for a requested length. */
  function EffectiveLength(length: nat): (n: nat)
    ensures n <= MaxCrcLen && n <= length
    ensures n == length || n == MaxCrcLen
  {
    if length > MaxCrcLen then MaxCrcLen else length
  }

  /** Feeding a message in two parts is feeding it whole: the register can
      be carried across calls. */
  lemma {:induction false} RegisterAppend(c: bv32, s: seq<bv8>, t: seq<bv8>)
    ensures Register(c, s + t) == Register(Register(c, s), t)
  {
    if |t| == 0 {
      assert s + t == s;
    } else {
      var u := s + t;
      assert u[..|u| - 1] == s + t[..|t| - 1];
      assert u[|u| - 1] == t[|t| - 1];
      RegisterAppend(c, s, t[..|t| - 1]);
    }
  }

  /** With no bytes processed, the finaliser cancels the seed: the result is 0. */
  lemma EmptyMessage()
    ensures Crc32([]) == 0
  {
  }

  /** A byte update is eight division steps. */
  lemma UpdateByteUnrolled(c: bv32, b: bv8)
    ensures UpdateByte(c, b)
         == ShiftBit(ShiftBit(ShiftBit(ShiftBit(ShiftBit(ShiftBit(ShiftBit(ShiftBit(c ^ (b as bv32)))))))))
  {
    var v := c ^ (b as bv32);
    assert ShiftBits(v, 8) == ShiftBit(ShiftBits(v, 7));
    assert ShiftBits(v, 7) == ShiftBit(ShiftBits(v, 6));
    assert ShiftBits(v, 6) == ShiftBit(ShiftBits(v, 5));
    assert ShiftBits(v, 5) == ShiftBit(ShiftBits(v, 4));
    assert ShiftBits(v, 4) == ShiftBit(ShiftBits(v, 3));
    assert ShiftBits(v, 3) == ShiftBit(ShiftBits(v, 2));
    assert ShiftBits(v, 2) == ShiftBit(ShiftBits(v, 1));
    assert ShiftBits(v, 1) == ShiftBit(ShiftBits(v, 0));
  }

  /** The CRC-32 check value: ASCII "123456789" gives 0xCBF43926. */
  lemma CheckValue()
    ensures Crc32([0x31, 0x32, 0x33, 0x34, 0x35, 0x36, 0x37, 0x38, 0x39]) == 0xCBF4_3926
  {
    var s: seq<bv8> := [0x31, 0x32, 0x33, 0x34, 0x35, 0x36, 0x37, 0x38, 0x39];
    assert Register(CrcInit, s[..0]) == 0xFFFF_FFFF;
    UpdateByteUnrolled(0xFFFF_FFFF, 0x31);
    assert UpdateByte(0xFFFF_FFFF, 0x31) == 0x7C23_1048;
    assert s[..1][..0] == s[..0];
    assert Register(CrcInit, s[..1]) == 0x7C23_1048;
    UpdateByteUnrolled(0x7C23_1048, 0x32);
    assert UpdateByte(0x7C23_1048, 0x32) == 0xB0AC_BB32;
    assert s[..2][..1] == s[..1];
    assert Register(CrcInit, s[..2]) == 0xB0AC_BB32;
    UpdateByteUnrolled(0xB0AC_BB32, 0x33);
    assert UpdateByte(0xB0AC_BB32, 0x33) == 0x77B7_9C2D;
    assert s[..3][..2] == s[..2];
    assert Register(CrcInit, s[..3]) == 0x77B7_9C2D;
    UpdateByteUnrolled(0x77B7_9C2D, 0x34);
    assert UpdateByte(0x77B7_9C2D, 0x34) == 0x641C_1F5C;
    assert s[..4][..3] == s[..3];
    assert Register(CrcInit, s[..4]) == 0x641C_1F5C;
    UpdateByteUnrolled(0x641C_1F5C, 0x35);
    assert UpdateByte(0x641C_1F5C, 0x35) == 0x340A_C5E3;
    assert s[..5][..4] == s[..4];
    assert Register(CrcInit, s[..5]) == 0x340A_C5E3;
    UpdateByteUnrolled(0x340A_C5E3, 0x36);
    assert UpdateByte(0x340A_C5E3, 0x36) == 0xF68D_2C9E;
    assert s[..6][..5] == s[..5];
    assert Register(CrcInit, s[..6]) == 0xF68D_2C9E;
    UpdateByteUnrolled(0xF68D_2C9E, 0x37);
    assert UpdateByte(0xF68D_2C9E, 0x37) == 0xAFFC_9660;
    assert s[..7][..6] == s[..6];
    assert Register(CrcInit, s[..7]) == 0xAFFC_9660;
    UpdateByteUnrolled(0xAFFC_9660, 0x38);
    assert UpdateByte(0xAFFC_9660, 0x38) == 0x651F_2550;
    assert s[..8][..7] == s[..7];
    assert Register(CrcInit, s[..8]) == 0x651F_2550;
    UpdateByteUnrolled(0x651F_2550, 0x39);
    assert UpdateByte(0x651F_2550, 0x39) == 0x340B_C6D9;
    assert s[..9][..8] == s[..8];
    assert Register(CrcInit, s[..9]) == 0x340B_C6D9;
    assert s[..9] == s;
  }

  /**
   * The routine itself. `isNull` stands for a NULL data pointer; `data`
   * is the memory the pointer designates, which must hold at least the
   * bytes the routine reads. A NULL pointer or zero length processes no
   * byte, so the result is the seed XOR the finaliser, 0.
   */
  method ComputeCrc(data: seq<bv8>, isNull: bool, length: u32) returns (crc: bv32)
    requires !isNull ==> EffectiveLength(length) <= |data|
    ensures isNull || length == 0 ==> crc == 0
    ensures !isNull ==> crc == Crc32(data[..EffectiveLength(length)])
  {
    var c: bv32 := CrcInit;
    if isNull || length == 0 {
      c := CrcInit;
    } else {
      var len := EffectiveLength(length);
      for i := 0 to len
        invariant c == Register(CrcInit, data[..i])
      {
        ghost var before := c;
        c := c ^ (data[i] as bv32);
        ghost var fed := c;
        for bit := 0 to 8
          invariant c == ShiftBits(fed, bit)
        {
          c := if c & 1 != 0 then (c >> 1) ^ CrcPoly else c >> 1;
        }
        assert c == UpdateByte(before, data[i]);
        assert data[..i + 1][..i] == data[..i];
      }
    }
    crc := c ^ 0xFFFF_FFFF;
  }
}
