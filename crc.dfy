/// The CRC of the 7z format (`src/parser/crc.rs`): the reflected CRC-32 with
/// polynomial 0x04C11DB7 (0xEDB88320 bit-reversed), initial value and final
/// xor 0xFFFFFFFF, the frame check sequence of IEEE 802.3 clause 3.2.9. The
/// crate delegates to the `crc` crate; here the algorithm is written out bit
/// by bit.
module Crc {
  import opened Base

  /// One bit step of the reflected register.
  function Shift(c: bv32): bv32 {
    if c & 1 == 1 then (c >> 1) ^ 0xEDB8_8320 else c >> 1
  }

  function ShiftN(c: bv32, n: nat): bv32
    decreases n
  {
    if n == 0 then c else ShiftN(Shift(c), n - 1)
  }

  /// The register after one input byte, least significant bit first.
  function CrcByte(c: bv32, b: bv8): bv32 {
    ShiftN(c ^ (b as bv32), 8)
  }

  /// `digest.update(data)` on a register holding `c`.
  function CrcUpdate(c: bv32, data: Bytes): bv32
    decreases |data|
  {
    if |data| == 0 then c else CrcUpdate(CrcByte(c, data[0]), data[1..])
  }

  /// `sevenz_crc`: initial register 0xFFFFFFFF, final xor 0xFFFFFFFF.
  function Crc32(data: Bytes): (r: U32) {
    (CrcUpdate(0xFFFF_FFFF, data) ^ 0xFFFF_FFFF) as int
  }

  /// Feeding the input in two parts gives the register of feeding it at
  /// once, which is what lets a digest be updated piece by piece.
  lemma {:induction false} CrcUpdateAppend(c: bv32, a: Bytes, b: Bytes)
    ensures CrcUpdate(c, a + b) == CrcUpdate(CrcUpdate(c, a), b)
    decreases |a|
  {
    if |a| > 0 {
      assert (a + b)[0] == a[0];
      assert (a + b)[1..] == a[1..] + b;
      CrcUpdateAppend(CrcByte(c, a[0]), a[1..], b);
    } else {
      assert a + b == b;
    }
  }

  /// The ASCII string "123456789" that CRC catalogues compute check values on.
  const CheckInput: Bytes := [0x31, 0x32, 0x33, 0x34, 0x35, 0x36, 0x37, 0x38, 0x39]

  /// The `check` field of `CRC_32_7Z`; the `crc` crate does not read it.
  const DeclaredCheck: U32 := 0xFC89_1918

  /// The check value of the parameters above.
  const Check: U32 := 0xCBF4_3926

  /// The algorithm's check value is 0xCBF43926.
  lemma Crc32Check()
    ensures Crc32(CheckInput) == Check
  {
    assert ShiftN(0xFFFFFFCE, 8) == 0x7C231048;
    assert ShiftN(0x7C23107A, 8) == 0xB0ACBB32;
    assert ShiftN(0xB0ACBB01, 8) == 0x77B79C2D;
    assert ShiftN(0x77B79C19, 8) == 0x641C1F5C;
    assert ShiftN(0x641C1F69, 8) == 0x340AC5E3;
    assert ShiftN(0x340AC5D5, 8) == 0xF68D2C9E;
    assert ShiftN(0xF68D2CA9, 8) == 0xAFFC9660;
    assert ShiftN(0xAFFC9658, 8) == 0x651F2550;
    assert ShiftN(0x651F2569, 8) == 0x340BC6D9;
    assert CrcUpdate(0x340BC6D9, []) == 0x340BC6D9;
    assert CrcUpdate(0x651F2550, [0x39]) == 0x340BC6D9;
    assert CrcUpdate(0xAFFC9660, [0x38, 0x39]) == 0x340BC6D9;
    assert CrcUpdate(0xF68D2C9E, [0x37, 0x38, 0x39]) == 0x340BC6D9;
    assert CrcUpdate(0x340AC5E3, [0x36, 0x37, 0x38, 0x39]) == 0x340BC6D9;
    assert CrcUpdate(0x641C1F5C, [0x35, 0x36, 0x37, 0x38, 0x39]) == 0x340BC6D9;
    assert CrcUpdate(0x77B79C2D, [0x34, 0x35, 0x36, 0x37, 0x38, 0x39]) == 0x340BC6D9;
    assert CrcUpdate(0xB0ACBB32, [0x33, 0x34, 0x35, 0x36, 0x37, 0x38, 0x39]) == 0x340BC6D9;
    assert CrcUpdate(0x7C231048, [0x32, 0x33, 0x34, 0x35, 0x36, 0x37, 0x38, 0x39]) == 0x340BC6D9;
    assert CrcUpdate(0xFFFFFFFF, [0x31, 0x32, 0x33, 0x34, 0x35, 0x36, 0x37, 0x38, 0x39]) == 0x340BC6D9;
  }

  /// The declared `check` is not the check value of the declared parameters
  /// (0xFC891918 is that of the non-reflected CRC-32/BZIP2).
  lemma DeclaredCheckDiffers()
    ensures Crc32(CheckInput) != DeclaredCheck
  {
    Crc32Check();
  }
}
