/**
 * The helpers of src/coding.rs (`mrag`, `hamming16_decode`, `control_bits`,
 * `u8_to_ascii`, `ascii_to_u8`). That file is not part of this model: the
 * helpers are kept uninterpreted, as function values handed to the decoder,
 * and all the decoder relies on is stated by ValidCoding.
 */
module Coding {
  import opened Base

  /** A magazine number as carried in a packet address: 3 bits. */
  type Mag = m: byte | m < 8

  /** A packet row number as carried in a packet address: 5 bits. */
  type Row = r: byte | r < 32

  /**
   * The Hamming 8/4 protected field decoders of ETS 300 706 section 8.2 and
   * the hex digit glyph conversions used by the page number indicator.
   * Every decoder is total: a corrupted byte still decodes to some value.
   */
  datatype Coding = Coding(
    mrag: seq<byte> -> (Mag, Row),      // magazine and row address, packet bytes 0..1
    hamming16: seq<byte> -> byte,      // page number of a header, packet bytes 2..3
    controlBits: seq<byte> -> nat,     // header control bits, packet bytes 4..11
    toAscii: byte -> byte,             // u8_to_ascii: nibble to its hex digit glyph
    fromAscii: byte -> byte            // ascii_to_u8: hex digit glyph to its nibble
  )

  /**
   * What the decoder assumes of the helpers: the glyph conversions are inverse
   * on the nibbles 0..15, and the decimal digits have their ASCII glyphs.
   */
  ghost predicate ValidCoding(c: Coding)
  {
    && (forall b: byte :: b < 16 ==> c.fromAscii(c.toAscii(b)) == b)
    && (forall b: byte :: b < 10 ==> c.toAscii(b) == 0x30 + b)
  }

  /** Distinct nibbles have distinct glyphs, a consequence of the inverse. */
  lemma GlyphsDistinct(c: Coding, a: byte, b: byte)
    requires ValidCoding(c) && a < 16 && b < 16 && a != b
    ensures c.toAscii(a) != c.toAscii(b)
  {
    assert c.fromAscii(c.toAscii(a)) == a;
    assert c.fromAscii(c.toAscii(b)) == b;
  }
}
