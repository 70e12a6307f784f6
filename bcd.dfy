/** The packed binary-coded-decimal codec every time and alarm register uses
    (RTC8564.cpp:188-194): one decimal digit per nibble. */
module Bcd {

  /** A byte whose two nibbles are both decimal digits. */
  predicate IsBcd(b: bv8) {
    (b >> 4) <= 9 && (b & 0x0F) <= 9
  }

  /** `decimalToBCD`: tens in the high nibble, units in the low nibble. The
      driver computes in int and stores the result in a byte; the 8-bit shift
      here drops the same high bits that store does. For 0..99 the result is
      BCD and its nibbles are the decimal digits. */
  function DecimalToBcd(decimal: bv8): (bcd: bv8)
    ensures decimal < 100 ==> IsBcd(bcd)
    ensures decimal < 100 ==> (bcd >> 4) == decimal / 10 && (bcd & 0x0F) == decimal % 10
  {
    ((decimal / 10) << 4) | (decimal % 10)
  }

  /** Bit 7 of an encoded value is clear exactly below 80: 80..99 encode as
      0x80..0x99, so a BCD byte can carry a flag in bit 7 only when the value
      it holds stays below 80. */
  lemma DecimalToBcdBit7(decimal: bv8)
    requires decimal < 100
    ensures decimal < 80 <==> (DecimalToBcd(decimal) & 0x80) == 0
  {
  }

  /** `BCDToDecimal`: ten times the high nibble plus the low nibble. The
      largest value is 15 * 10 + 15 = 165, and a BCD byte decodes below
      100. */
  function BcdToDecimal(bcd: bv8): (decimal: bv8)
    ensures decimal <= 165
    ensures IsBcd(bcd) ==> decimal < 100
  {
    (bcd >> 4) * 10 + (bcd & 0x0F)
  }

  /** The 8-bit arithmetic never wraps, so it agrees with the driver's int
      arithmetic. */
  lemma BcdToDecimalNoWrap(bcd: bv8)
    ensures BcdToDecimal(bcd) as int == (bcd >> 4) as int * 10 + (bcd & 0x0F) as int
  {
  }

  /** Decoding undoes encoding for every value 0..99. */
  lemma DecimalRoundTrip(v: bv8)
    requires v < 100
    ensures BcdToDecimal(DecimalToBcd(v)) == v
  {
  }

  /** Encoding undoes decoding for every BCD byte. */
  lemma BcdRoundTrip(b: bv8)
    requires IsBcd(b)
    ensures DecimalToBcd(BcdToDecimal(b)) == b
  {
  }

  /** Encoding is one-to-one on 0..99, so two different decimal values never
      share a register byte. */
  lemma DecimalToBcdInjective(u: bv8, v: bv8)
    requires u < 100 && v < 100 && DecimalToBcd(u) == DecimalToBcd(v)
    ensures u == v
  {
    DecimalRoundTrip(u);
    DecimalRoundTrip(v);
  }

  /** A value below `limit` encodes below a mask that keeps every bit the
      encoding can use: the driver's read masks (0x7f, 0x3f, 0x1f, 0x07) do
      not disturb in-range values. */
  lemma MaskKeepsBcd(v: bv8, mask: bv8)
    requires (v <= 79 && mask == 0x7f) || (v <= 39 && mask == 0x3f) ||
             (v <= 19 && mask == 0x1f) || (v <= 7 && mask == 0x07)
    ensures (DecimalToBcd(v) & mask) == DecimalToBcd(v)
  {
  }
}
