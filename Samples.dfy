/** Multi-byte sample values.

    Pressure is a 24-bit two's-complement code in three registers, the
    lowest address holding the least significant byte (PRESS_OUT_XL, _L,
    _H and, for FIFO samples, FIFO_DATA_OUT_PRESS_XL, _L, _H).  The driver
    reports it two ways: `raw`, the code left-aligned in a signed 32-bit
    integer (the bytes in bits 8 to 31, so that the sign lands in bit 31),
    and `lsb`, the code right-aligned by an arithmetic shift of `raw` by 8.
    Temperature (TEMP_OUT_L/H) and the reference pressure (REF_P_L/H) are
    16-bit two's-complement values held low byte first.  RPDS_L/H are not
    modelled beyond their addresses. */
module Samples {
  import opened BitField
  import opened Registers

  type int16 = x: int | -0x8000 <= x < 0x8000
  type int24 = x: int | -0x80_0000 <= x < 0x80_0000
  type int32 = x: int | -0x8000_0000 <= x < 0x8000_0000

  lemma Pow2Wide()
    ensures Pow2(15) == 0x8000 && Pow2(16) == 0x1_0000
    ensures Pow2(23) == 0x80_0000 && Pow2(24) == 0x100_0000
    ensures Pow2(31) == 0x8000_0000 && Pow2(32) == 0x1_0000_0000
  {
    Pow2Values();
    assert Pow2(16) == 256 * Pow2(8) by { Pow2Add(8, 8); }
    assert Pow2(24) == 256 * Pow2(16) by { Pow2Add(16, 8); }
    assert Pow2(32) == 256 * Pow2(24) by { Pow2Add(24, 8); }
  }

  lemma {:induction false} Pow2Add(a: nat, b: nat)
    ensures Pow2(a + b) == Pow2(a) * Pow2(b)
  {
    if a > 0 {
      Pow2Add(a - 1, b);
    }
  }

  // ---------------------------------------------------------------------
  // Two's complement.

  /** The value of the `n`-bit two's-complement pattern `u`. */
  function Signed(u: nat, n: nat): (v: int)
    requires 0 < n && u < Pow2(n)
    ensures 0 <= v + Pow2(n - 1) < Pow2(n)
    ensures v >= 0 <==> u < Pow2(n - 1)
  {
    if u < Pow2(n - 1) then u else u - Pow2(n)
  }

  /** The `n`-bit two's-complement pattern of `v`. */
  function Unsigned(v: int, n: nat): (u: nat)
    requires 0 < n && 0 <= v + Pow2(n - 1) < Pow2(n)
    ensures u < Pow2(n)
    ensures u < Pow2(n - 1) <==> v >= 0
  {
    if v >= 0 then v else v + Pow2(n)
  }

  lemma SignedUnsigned(v: int, n: nat)
    requires 0 < n && 0 <= v + Pow2(n - 1) < Pow2(n)
    ensures Signed(Unsigned(v, n), n) == v
  {
  }

  lemma UnsignedSigned(u: nat, n: nat)
    requires 0 < n && u < Pow2(n)
    ensures Unsigned(Signed(u, n), n) == u
  {
  }

  // ---------------------------------------------------------------------
  // 24-bit pressure.

  /** The output registers of each multi-byte sample sit at consecutive
      addresses, least significant byte first, so a burst read from the
      lowest address delivers XL, L, H (or L, H) in that order. */
  lemma OutputAddressesConsecutive()
    ensures PRESS_OUT_L == PRESS_OUT_XL + 1 && PRESS_OUT_H == PRESS_OUT_L + 1
    ensures TEMP_OUT_L == PRESS_OUT_H + 1 && TEMP_OUT_H == TEMP_OUT_L + 1
    ensures FIFO_DATA_OUT_PRESS_L == FIFO_DATA_OUT_PRESS_XL + 1
    ensures FIFO_DATA_OUT_PRESS_H == FIFO_DATA_OUT_PRESS_L + 1
    ensures REF_P_H == REF_P_L + 1 && RPDS_H == RPDS_L + 1
    ensures THS_P_H == THS_P_L + 1
  {
  }

  /** The 24-bit code held by the bytes read from XL, L and H. */
  function PressureCode(xl: u8, l: u8, h: u8): (u: nat)
    ensures u < 0x100_0000
    ensures u % 256 == xl && u / 256 % 256 == l && u / 0x1_0000 == h
    ensures u < Pow2(24) && 256 * u < Pow2(32)
  {
    Pow2Wide();
    xl + 256 * l + 0x1_0000 * h
  }

  /** The left-aligned `raw` value: the word `h << 24 | l << 16 | xl << 8`
      read as a signed 32-bit integer. */
  function PressureRaw(xl: u8, l: u8, h: u8): (raw: int32)
    ensures raw < 0 <==> h >= 0x80
  {
    var c := PressureCode(xl, l, h);
    256 * (if h < 0x80 then c else c - 0x100_0000)
  }

  /** `raw` is the 32-bit word with the bytes in bits 8 to 31, read as a
      two's-complement value. */
  lemma PressureRawIsWord(xl: u8, l: u8, h: u8)
    ensures PressureRaw(xl, l, h) == Signed(256 * PressureCode(xl, l, h), 32)
  {
    Pow2Wide();
  }

  /** The right-aligned `lsb` value: `raw` shifted arithmetically right by
      8, which rounds towards minus infinity as Dafny's `/` does. */
  function PressureLsb(raw: int32): (lsb: int24)
    ensures raw - 256 < 256 * lsb <= raw
  {
    raw / 256
  }

  /** No bits are lost: `raw` is `lsb` shifted back left. */
  lemma PressureRawIsLsbShifted(xl: u8, l: u8, h: u8)
    ensures PressureRaw(xl, l, h) == 256 * PressureLsb(PressureRaw(xl, l, h))
  {
  }

  /** `lsb` is the 24-bit two's-complement value of the three bytes. */
  lemma PressureLsbIsSigned(xl: u8, l: u8, h: u8)
    ensures PressureLsb(PressureRaw(xl, l, h)) == Signed(PressureCode(xl, l, h), 24)
  {
    Pow2Wide();
  }

  /** The three bytes that hold a 24-bit value, XL first. */
  function PressureBytes(lsb: int24): (b: (u8, u8, u8))
    ensures lsb >= 0 ==> PressureCode(b.0, b.1, b.2) == lsb
    ensures lsb < 0 ==> PressureCode(b.0, b.1, b.2) == lsb + 0x100_0000
  {
    Pow2Wide();
    var u := Unsigned(lsb, 24);
    (u % 256, u / 256 % 256, u / 0x1_0000)
  }

  lemma PressureBytesRoundTrip(lsb: int24)
    ensures var b := PressureBytes(lsb);
            PressureLsb(PressureRaw(b.0, b.1, b.2)) == lsb
  {
    var b := PressureBytes(lsb);
    Pow2Wide();
    PressureLsbIsSigned(b.0, b.1, b.2);
    SignedUnsigned(lsb, 24);
  }

  lemma PressureBytesOfLsb(xl: u8, l: u8, h: u8)
    ensures PressureBytes(PressureLsb(PressureRaw(xl, l, h))) == (xl, l, h)
  {
    Pow2Wide();
    PressureLsbIsSigned(xl, l, h);
    UnsignedSigned(PressureCode(xl, l, h), 24);
  }

  /** The extreme codes reach the ends of both ranges without overflow. */
  lemma PressureExtremes()
    ensures PressureRaw(0xFF, 0xFF, 0x7F) == 0x7FFF_FF00
    ensures PressureLsb(PressureRaw(0xFF, 0xFF, 0x7F)) == 0x7F_FFFF
    ensures PressureRaw(0x00, 0x00, 0x80) == -0x8000_0000
    ensures PressureLsb(PressureRaw(0x00, 0x00, 0x80)) == -0x80_0000
  {
    Pow2Wide();
  }

  // ---------------------------------------------------------------------
  // 16-bit values, low byte first.

  function Int16Of(l: u8, h: u8): (v: int16)
    ensures v < 0 <==> h >= 0x80
  {
    Pow2Wide();
    Signed(l + 256 * h, 16)
  }

  /** The (low, high) bytes of a 16-bit value. */
  function Int16Bytes(v: int16): (b: (u8, u8))
    ensures v >= 0 ==> b.0 + 256 * b.1 == v
    ensures v < 0 ==> b.0 + 256 * b.1 == v + 0x1_0000
  {
    Pow2Wide();
    var u := Unsigned(v, 16);
    (u % 256, u / 256)
  }

  lemma Int16BytesRoundTrip(v: int16)
    ensures Int16Of(Int16Bytes(v).0, Int16Bytes(v).1) == v
  {
    Pow2Wide();
    SignedUnsigned(v, 16);
  }

  lemma Int16OfRoundTrip(l: u8, h: u8)
    ensures Int16Bytes(Int16Of(l, h)) == (l, h)
  {
    var u := l + 256 * h;
    Pow2Wide();
    UnsignedSigned(u, 16);
    assert Unsigned(Int16Of(l, h), 16) == u;
    DivModUnique(u, 256, h, l);
  }

  // ---------------------------------------------------------------------
  // The reference pressure in REF_P_L and REF_P_H.

  /** The reference held by the `refp` fields of REF_P_L and REF_P_H. */
  function ReferenceOf(refL: u8, refH: u8): (v: int16)
    ensures v == Int16Of(refL, refH)
  {
    Pow2Values();
    LowSmall(refL, 8);
    LowSmall(refH, 8);
    Int16Of(RefPL.Read(refL).refp, RefPH.Read(refH).refp)
  }

  /** Writing a reference's bytes to REF_P_L and REF_P_H and reading them
      back gives the reference. */
  lemma ReferenceRoundTrip(v: int16)
    ensures ReferenceOf(Encode(RefPLReg(RefPL(Int16Bytes(v).0))), Encode(RefPHReg(RefPH(Int16Bytes(v).1)))) == v
  {
    RefPLEncode(Int16Bytes(v).0);
    RefPHEncode(Int16Bytes(v).1);
    Int16BytesRoundTrip(v);
  }

  /** REF_P_L is one full-width field, so its byte is the field itself. */
  lemma RefPLEncode(x: u8)
    ensures Encode(RefPLReg(RefPL(x))) == x
  {
    var e := Encode(RefPLReg(RefPL(x)));
    DecodeEncode(RefPLReg(RefPL(x)));
    RefPLView(e);
    Pow2Values();
    LowSmall(e, 8);
  }

  /** REF_P_H is one full-width field, so its byte is the field itself. */
  lemma RefPHEncode(x: u8)
    ensures Encode(RefPHReg(RefPH(x))) == x
  {
    var e := Encode(RefPHReg(RefPH(x)));
    DecodeEncode(RefPHReg(RefPH(x)));
    RefPHView(e);
    Pow2Values();
    LowSmall(e, 8);
  }
}
