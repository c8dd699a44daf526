/** Sample decoding of the FXOS8700CQ driver: the bit-level arithmetic that
    turns the six output-register bytes into three signed axis values.

    Each decoder is written twice: once as the driver computes it on 16-bit
    words (`BeBits`, `Asr2`, `Signed16`, `TruncDiv`), and once as plain integer
    arithmetic on the byte values (`BeValue`).  The lemmas connect the two. */
module Decode {

  /** A Rust `i16`. */
  newtype i16 = x: int | -0x8000 <= x < 0x8000

  /** The three axis values delivered to the client. */
  datatype Axes = Axes(x: i16, y: i16, z: i16)

  /** The all-zero reading the driver reports on every bus failure. */
  const ZeroAxes: Axes := Axes(0, 0, 0)

  // ---------------------------------------------------------------------------
  // Reference arithmetic
  // ---------------------------------------------------------------------------

  /** A byte read as a two's-complement `i8`. */
  function SignedByte(b: bv8): (r: int)
    ensures -128 <= r < 128
    ensures r < 0 <==> b >= 0x80
  {
    if b < 0x80 then b as int else b as int - 256
  }

  /** The big-endian two's-complement value of the byte pair (hi, lo), as
      arithmetic on the byte values: the high byte carries the sign. */
  function BeValue(hi: bv8, lo: bv8): (r: int)
    ensures -0x8000 <= r < 0x8000
    ensures r < 0 <==> hi >= 0x80
  {
    SignedByte(hi) * 256 + lo as int
  }

  /** Rust's `/` on signed integers: the quotient rounded toward zero. */
  function TruncDiv(a: int, d: int): (q: int)
    requires d > 0
    ensures a >= 0 ==> 0 <= q * d <= a < q * d + d
    ensures a < 0 ==> q * d - d < a <= q * d <= 0
  {
    if a >= 0 then DivBounds(a, d); a / d
    else DivBounds(-a, d); -((-a) / d)
  }

  // ---------------------------------------------------------------------------
  // The driver's 16-bit word operations
  // ---------------------------------------------------------------------------

  /** `((hi as u16) << 8) | lo as u16`, and equally the `i16` form at lines
      340-342: both build the same 16-bit pattern, the `i16` shift wrapping
      the top bit of `hi` into the sign bit. */
  function BeBits(hi: bv8, lo: bv8): bv16
  {
    ((hi as bv16) << 8) | (lo as bv16)
  }

  /** The value of a 16-bit pattern read as a two's-complement `i16`. */
  function Signed16(v: bv16): (r: int)
    ensures -0x8000 <= r < 0x8000
    ensures r < 0 <==> v & 0x8000 != 0
  {
    if v < 0x8000 then v as int else v as int - 0x10000
  }

  /** `>> 2` on an `i16`: an arithmetic shift, copying the sign bit into the
      two vacated top bits. */
  function Asr2(v: bv16): bv16
  {
    if v & 0x8000 != 0 then (v >> 2) | 0xC000 else v >> 2
  }

  // ---------------------------------------------------------------------------
  // Axis decoders
  // ---------------------------------------------------------------------------

  /** One accelerometer axis (lines 340-346): the big-endian word, shifted
      arithmetically right by two, widened, scaled by 244 and divided by 1000
      with truncation.  The range shows the `as i16` at line 362 is lossless. */
  function AccelAxis(hi: bv8, lo: bv8): (r: i16)
    ensures -1998 <= r <= 1998
    ensures r as int == TruncDiv((BeValue(hi, lo) / 4) * 244, 1000)
  {
    var shifted := Asr2(BeBits(hi, lo));
    BitsValue(hi, lo);
    AsrIsFloorDiv4(BeBits(hi, lo));
    ScaleBound(Signed16(shifted));
    TruncDiv(Signed16(shifted) * 244, 1000) as i16
  }

  /** One magnetometer axis (lines 389-391): the big-endian word reinterpreted
      as an `i16`, with no shift and no scaling. */
  function MagAxis(hi: bv8, lo: bv8): (r: i16)
    ensures r as int == BeValue(hi, lo)
  {
    BitsValue(hi, lo);
    Signed16(BeBits(hi, lo)) as i16
  }

  /** The three accelerometer axes from bytes 0..5 of the returned buffer. */
  function DecodeAccel(b: seq<bv8>): (a: Axes)
    requires |b| >= 6
    ensures a.x as int == TruncDiv((BeValue(b[0], b[1]) / 4) * 244, 1000)
    ensures a.y as int == TruncDiv((BeValue(b[2], b[3]) / 4) * 244, 1000)
    ensures a.z as int == TruncDiv((BeValue(b[4], b[5]) / 4) * 244, 1000)
  {
    Axes(AccelAxis(b[0], b[1]), AccelAxis(b[2], b[3]), AccelAxis(b[4], b[5]))
  }

  /** The three magnetometer axes from bytes 0..5 of the returned buffer. */
  function DecodeMag(b: seq<bv8>): (a: Axes)
    requires |b| >= 6
    ensures a.x as int == BeValue(b[0], b[1])
    ensures a.y as int == BeValue(b[2], b[3])
    ensures a.z as int == BeValue(b[4], b[5])
  {
    Axes(MagAxis(b[0], b[1]), MagAxis(b[2], b[3]), MagAxis(b[4], b[5]))
  }

  /** The big-endian byte pair of an `i16`: the inverse of `MagAxis`. */
  function EncodeBe(v: i16): (bytes: (bv8, bv8))
    ensures BeValue(bytes.0, bytes.1) == v as int
  {
    var u := if v < 0 then v as int + 0x10000 else v as int;
    var hi, lo := (u / 256) as bv8, (u % 256) as bv8;
    ByteOfInt(u / 256);
    ByteOfInt(u % 256);
    ByteBelowSign(hi);
    (hi, lo)
  }

  // ---------------------------------------------------------------------------
  // Bit-vector facts, each about a single byte or a byte split
  // ---------------------------------------------------------------------------

  lemma DivBounds(a: int, d: int)
    requires a >= 0 && d > 0
    ensures 0 <= (a / d) * d <= a < (a / d) * d + d
  {
  }

  lemma ByteOfInt(n: int)
    requires 0 <= n < 256
    ensures (n as bv8) as int == n
  {
    assert n % 256 == n;
  }

  lemma WordSplit(v: bv16)
    ensures v as int == ((v >> 8) as bv8) as int * 256 + ((v & 0xFF) as bv8) as int
  {
    assert (v >> 8) as int == ((v >> 8) as bv8) as int;
    assert (v & 0xFF) as int == ((v & 0xFF) as bv8) as int;
  }

  lemma ByteShr2(b: bv8)
    ensures (b >> 2) as int == b as int / 4
    ensures ((b & 3) << 6) as int == (b as int % 4) * 64
  {
    assert b as int == (b >> 2) as int * 4 + (b & 3) as int;
    assert ((b & 3) << 6) as int == (b & 3) as int * 64;
  }

  lemma ByteOr(a: bv8, b: bv8)
    requires a & 0x3F == 0 && b < 0x40
    ensures (a | b) as int == a as int + b as int
  {
  }

  lemma ByteTopOr(a: bv8)
    requires a < 0x40
    ensures (a | 0xC0) as int == a as int + 0xC0
  {
  }

  /** The 16-bit word built from (hi, lo) has the reference value. */
  lemma BitsValue(hi: bv8, lo: bv8)
    ensures Signed16(BeBits(hi, lo)) == BeValue(hi, lo)
  {
    BitsBytes(hi, lo);
    SignedOfBytes(BeBits(hi, lo), hi, lo);
  }

  lemma BitsBytes(hi: bv8, lo: bv8)
    ensures (BeBits(hi, lo) >> 8) as bv8 == hi
    ensures (BeBits(hi, lo) & 0xFF) as bv8 == lo
    ensures BeBits(hi, lo) < 0x8000 <==> hi < 0x80
  {
  }

  lemma WordValue(v: bv16, hi: bv8, lo: bv8)
    requires (v >> 8) as bv8 == hi && (v & 0xFF) as bv8 == lo
    ensures v as int == hi as int * 256 + lo as int
  {
    WordSplit(v);
  }

  /** The high and low byte of a 16-bit word, as integers. */
  function HiByte(v: bv16): int
  {
    ((v >> 8) as bv8) as int
  }

  function LoByte(v: bv16): int
  {
    ((v & 0xFF) as bv8) as int
  }

  /** The arithmetic shift is floor division by four of the signed value
      (Dafny's `/` by a positive divisor rounds toward negative infinity). */
  lemma AsrIsFloorDiv4(v: bv16)
    ensures Signed16(Asr2(v)) == Signed16(v) / 4
  {
    var w := Asr2(v);
    SignedByParts(v);
    SignedByParts(w);
    AsrParts(v);
    FloorArith(HiByte(v), LoByte(v), HiByte(w), LoByte(w), HiByte(v) >= 128, Signed16(v), Signed16(w));
  }

  /** The signed value of a word from its byte values. */
  lemma SignedByParts(v: bv16)
    ensures 0 <= HiByte(v) < 256 && 0 <= LoByte(v) < 256
    ensures Signed16(v) == if HiByte(v) >= 128 then HiByte(v) * 256 + LoByte(v) - 0x10000
                           else HiByte(v) * 256 + LoByte(v)
  {
    var h, l := (v >> 8) as bv8, (v & 0xFF) as bv8;
    SignedOfBytes(v, h, l);
    assert h >= 0x80 <==> h as int >= 128;
  }

  /** The signed value of a word, from its two bytes. */
  lemma SignedOfBytes(v: bv16, h: bv8, l: bv8)
    requires (v >> 8) as bv8 == h && (v & 0xFF) as bv8 == l
    ensures Signed16(v) == if h >= 0x80 then h as int * 256 + l as int - 0x10000
                           else h as int * 256 + l as int
  {
    assert v < 0x8000 <==> h < 0x80;
    WordValue(v, h, l);
  }

  /** The byte values of the shifted word, from those of the input. */
  lemma AsrParts(v: bv16)
    ensures LoByte(Asr2(v)) == (HiByte(v) % 4) * 64 + LoByte(v) / 4
    ensures HiByte(Asr2(v)) == HiByte(v) / 4 + (if HiByte(v) >= 128 then 0xC0 else 0)
  {
    AsrLoPart(v);
    AsrHiPart(v);
  }

  lemma AsrLoPart(v: bv16)
    ensures LoByte(Asr2(v)) == (HiByte(v) % 4) * 64 + LoByte(v) / 4
  {
    var h, l := (v >> 8) as bv8, (v & 0xFF) as bv8;
    AsrLoBytes(v);
    ByteShr2(h);
    ByteShr2(l);
    ByteOr((h & 3) << 6, l >> 2);
  }

  lemma AsrHiPart(v: bv16)
    ensures HiByte(Asr2(v)) == HiByte(v) / 4 + (if HiByte(v) >= 128 then 0xC0 else 0)
  {
    var h := (v >> 8) as bv8;
    AsrHiBytes(v);
    ByteShr2(h);
    ByteBelowSign(h);
    if v & 0x8000 != 0 {
      ByteTopOr(h >> 2);
    }
  }

  /** The low byte of the shifted word, from the bytes of the input. */
  lemma AsrLoBytes(v: bv16)
    ensures (Asr2(v) & 0xFF) as bv8 == ((((v >> 8) as bv8) & 3) << 6) | (((v & 0xFF) as bv8) >> 2)
    ensures ((((v >> 8) as bv8) & 3) << 6) & 0x3F == 0 && ((v & 0xFF) as bv8) >> 2 < 0x40
  {
  }

  /** The high byte of the shifted word, from the high byte of the input. */
  lemma AsrHiBytes(v: bv16)
    ensures v & 0x8000 != 0 <==> (v >> 8) as bv8 >= 0x80
    ensures (Asr2(v) >> 8) as bv8 ==
      if v & 0x8000 != 0 then (((v >> 8) as bv8) >> 2) | 0xC0 else ((v >> 8) as bv8) >> 2
    ensures ((v >> 8) as bv8) >> 2 < 0x40
  {
  }

  /** The integer identity behind `AsrIsFloorDiv4`: with the shifted word's
      bytes computed from the input's, its signed value is the input's divided
      by four, rounding down. */
  lemma FloorArith(h: int, l: int, wh: int, wl: int, neg: bool, sv: int, sw: int)
    requires 0 <= h < 256 && 0 <= l < 256
    requires neg <==> h >= 128
    requires wl == (h % 4) * 64 + l / 4
    requires wh == h / 4 + (if neg then 0xC0 else 0)
    requires sv == if neg then h * 256 + l - 0x10000 else h * 256 + l
    requires sw == if neg then wh * 256 + wl - 0x10000 else wh * 256 + wl
    ensures sw == sv / 4
  {
  }

  /** A 14-bit sample scaled by 244/1000 stays within [-1998, 1998]. */
  lemma ScaleBound(s: int)
    requires -0x2000 <= s < 0x2000
    ensures -1998 <= TruncDiv(s * 244, 1000) <= 1998
  {
  }

  // ---------------------------------------------------------------------------
  // Properties of the decoders
  // ---------------------------------------------------------------------------

  lemma ByteBelowSign(b: bv8)
    ensures b < 0x80 <==> b as int < 128
  {
  }

  lemma ByteOfValue(n: int, b: bv8)
    requires n == b as int
    ensures n as bv8 == b
  {
  }

  /** Distinct byte pairs have distinct big-endian values. */
  lemma BeValueInjective(hi1: bv8, lo1: bv8, hi2: bv8, lo2: bv8)
    requires BeValue(hi1, lo1) == BeValue(hi2, lo2)
    ensures hi1 == hi2 && lo1 == lo2
  {
    DigitsUnique(SignedByte(hi1), lo1 as int, SignedByte(hi2), lo2 as int);
    SignedByteInjective(hi1, hi2);
    ByteOfValue(lo1 as int, lo1);
    ByteOfValue(lo2 as int, lo2);
  }

  lemma DigitsUnique(s1: int, l1: int, s2: int, l2: int)
    requires 0 <= l1 < 256 && 0 <= l2 < 256
    requires s1 * 256 + l1 == s2 * 256 + l2
    ensures s1 == s2 && l1 == l2
  {
  }

  lemma SignedByteInjective(a: bv8, b: bv8)
    requires SignedByte(a) == SignedByte(b)
    ensures a == b
  {
    ByteBelowSign(a);
    ByteBelowSign(b);
    ByteOfValue(a as int, a);
    ByteOfValue(b as int, b);
  }

  /** Encoding an `i16` big-endian and decoding it as a magnetometer axis
      gives the value back. */
  lemma MagRoundTrip(v: i16)
    ensures MagAxis(EncodeBe(v).0, EncodeBe(v).1) == v
  {
  }

  /** Decoding a byte pair as a magnetometer axis and encoding the result
      gives the bytes back: the decoder loses nothing. */
  lemma MagBytesRoundTrip(hi: bv8, lo: bv8)
    ensures EncodeBe(MagAxis(hi, lo)) == (hi, lo)
  {
    var e := EncodeBe(MagAxis(hi, lo));
    BeValueInjective(e.0, e.1, hi, lo);
  }

  /** Rust's truncating division is monotone in the dividend. */
  lemma TruncDivMonotone(a: int, b: int, d: int)
    requires d > 0 && a <= b
    ensures TruncDiv(a, d) <= TruncDiv(b, d)
  {
    var qa, qb := TruncDiv(a, d), TruncDiv(b, d);
    if qa > qb {
      MulStep(qb, qa, d);
    }
  }

  lemma MulStep(x: int, y: int, d: int)
    requires x < y && d > 0
    ensures x * d + d <= y * d
  {
    assert (x + 1) * d <= y * d;
  }

  /** A larger raw sample never decodes to a smaller acceleration. */
  lemma AccelMonotone(hi1: bv8, lo1: bv8, hi2: bv8, lo2: bv8)
    requires BeValue(hi1, lo1) <= BeValue(hi2, lo2)
    ensures AccelAxis(hi1, lo1) <= AccelAxis(hi2, lo2)
  {
    var s1, s2 := BeValue(hi1, lo1) / 4, BeValue(hi2, lo2) / 4;
    assert s1 <= s2;
    assert s1 * 244 <= s2 * 244;
    TruncDivMonotone(s1 * 244, s2 * 244, 1000);
  }

  /** The truncation toward zero gives a dead band: exactly the raw words
      from -16 to 19 decode to a zero acceleration. */
  lemma AccelZeroBand(hi: bv8, lo: bv8)
    ensures AccelAxis(hi, lo) == 0 <==> -16 <= BeValue(hi, lo) <= 19
  {
    var s := BeValue(hi, lo) / 4;
    TruncDivZero(s * 244, 1000);
    assert -1000 < s * 244 < 1000 <==> -4 <= s <= 4;
  }

  lemma TruncDivZero(a: int, d: int)
    requires d > 0
    ensures TruncDiv(a, d) == 0 <==> -d < a < d
  {
  }

  /** The worked example: 0x1000, 0x2000 and 0x3000 decode to 249, 499, 749. */
  lemma AccelExample()
    ensures DecodeAccel([0x10, 0x00, 0x20, 0x00, 0x30, 0x00]) == Axes(249, 499, 749)
  {
    var b: seq<bv8> := [0x10, 0x00, 0x20, 0x00, 0x30, 0x00];
    assert BeValue(b[0], b[1]) == 0x1000;
    assert BeValue(b[2], b[3]) == 0x2000;
    assert BeValue(b[4], b[5]) == 0x3000;
  }

  /** All-ones bytes: the floor shift gives -1 and truncation then gives 0. */
  lemma AccelAllOnes()
    ensures DecodeAccel([0xFF, 0xFF, 0xFF, 0xFF, 0xFF, 0xFF]) == ZeroAxes
  {
    assert BeValue(0xFF, 0xFF) == -1;
  }

  /** The magnetometer example: 0xFFFF, 0x0001 and 0x8000 read as -1, 1 and
      -32768. */
  lemma MagExample()
    ensures DecodeMag([0xFF, 0xFF, 0x00, 0x01, 0x80, 0x00]) == Axes(-1, 1, -32768)
  {
    assert BeValue(0xFF, 0xFF) == -1;
    assert BeValue(0x00, 0x01) == 1;
    assert BeValue(0x80, 0x00) == -32768;
  }
}
