/** 32-bit words as JavaScript computes with them: bitwise operations yield signed
    numbers, sums are exact, and `>>> 0` reduces them modulo 2 to the power 32. */
module Words {

  type Byte = bv8
  type Word = bv32

  const TWO_32 := 0x1_0000_0000

  function Byte3(w: Word): Byte { (w >> 24) as Byte }
  function Byte2(w: Word): Byte { ((w >> 16) & 0xff) as Byte }
  function Byte1(w: Word): Byte { ((w >> 8) & 0xff) as Byte }
  function Byte0(w: Word): Byte { (w & 0xff) as Byte }

  /** The word of four bytes, the most significant first. */
  function WordOf(b3: Byte, b2: Byte, b1: Byte, b0: Byte): Word {
    ((b3 as Word) << 24) | ((b2 as Word) << 16) | ((b1 as Word) << 8) | (b0 as Word)
  }

  /** The number of a byte, from its two hexadecimal digits. */
  function Number(b: Byte): (n: int)
    ensures 0 <= n < 0x100
  {
    16 * HexNumber((b >> 4) as bv4) + HexNumber((b & 0xf) as bv4)
  }

  function HexNumber(x: bv4): (n: int)
    ensures 0 <= n < 16
  {
    x as int
  }

  /** The byte of the last two hexadecimal digits of a number. */
  function Digit(n: int): Byte {
    OfHex(HexDigit(n / 16), HexDigit(n))
  }

  function HexDigit(n: int): bv4 {
    (n % 16) as bv4
  }

  function OfHex(high: bv4, low: bv4): Byte {
    ((high as Byte) << 4) | (low as Byte)
  }

  /** The number a word stands for in an unsigned array. */
  function Unsigned(w: Word): (n: int)
    ensures 0 <= n < TWO_32
  {
    Number(Byte3(w)) * 0x100_0000 + Number(Byte2(w)) * 0x1_0000 + Number(Byte1(w)) * 0x100 + Number(Byte0(w))
  }

  /** The number it stands for as the result of a bitwise operation. */
  function Signed(w: Word): int {
    if Unsigned(w) >= 0x8000_0000 then Unsigned(w) - TWO_32 else Unsigned(w)
  }

  /** The signed number is the only one from -0x8000_0000 to 0x7fff_ffff that stands for
      the same word. */
  lemma SignedOnly(w: Word, n: int)
    ensures -0x8000_0000 <= Signed(w) < 0x8000_0000 && Signed(w) % TWO_32 == Unsigned(w)
    ensures -0x8000_0000 <= n < 0x8000_0000 && n % TWO_32 == Unsigned(w) ==> n == Signed(w)
  {
    hide Unsigned;
  }

  /** `n >>> 0`, for any integer. */
  function Wrap(n: int): Word {
    WordOf(Digit(n / 0x100 / 0x100 / 0x100), Digit(n / 0x100 / 0x100), Digit(n / 0x100), Digit(n))
  }

  lemma BytesOfWord(b3: Byte, b2: Byte, b1: Byte, b0: Byte)
    ensures var w := WordOf(b3, b2, b1, b0); Byte3(w) == b3 && Byte2(w) == b2 && Byte1(w) == b1 && Byte0(w) == b0
  {
  }

  lemma WordOfBytes(w: Word)
    ensures WordOf(Byte3(w), Byte2(w), Byte1(w), Byte0(w)) == w
  {
  }

  lemma HexOfByte(high: bv4, low: bv4)
    ensures (OfHex(high, low) >> 4) as bv4 == high && (OfHex(high, low) & 0xf) as bv4 == low
  {
  }

  lemma ByteOfHex(b: Byte)
    ensures OfHex((b >> 4) as bv4, (b & 0xf) as bv4) == b
  {
  }

  lemma HexReadBack(n: int)
    ensures HexNumber(HexDigit(n)) == n % 16
  {
    ReadBack(n % 16);
  }

  lemma ReadBack(n: int)
    requires 0 <= n < 16
    ensures (n as bv4) as int == n
  {
  }

  lemma NumberOfDigit(n: int)
    ensures Number(Digit(n)) == n % 0x100
  {
    hide HexNumber, HexDigit, OfHex;
    HexOfByte(HexDigit(n / 16), HexDigit(n));
    HexReadBack(n / 16);
    HexReadBack(n);
    assert n == n / 16 / 16 * 0x100 + n / 16 % 16 * 16 + n % 16;
  }

  lemma FourDigitsOf(n: int)
    ensures n % TWO_32 == n / 0x100 / 0x100 / 0x100 % 0x100 * 0x100_0000 + n / 0x100 / 0x100 % 0x100 * 0x1_0000
                          + n / 0x100 % 0x100 * 0x100 + n % 0x100
  {
    var a := n / 0x100;
    var b := a / 0x100;
    var c := b / 0x100;
    var d := c / 0x100;
    var low := c % 0x100 * 0x100_0000 + b % 0x100 * 0x1_0000 + a % 0x100 * 0x100 + n % 0x100;
    assert n == d * TWO_32 + low && 0 <= low < TWO_32;
  }

  /** Reducing keeps the residue modulo 2 to the power 32. */
  lemma UnsignedOfWrap(n: int)
    ensures Unsigned(Wrap(n)) == n % TWO_32
  {
    hide WordOf, Byte3, Byte2, Byte1, Byte0, Number, Digit;
    BytesOfWord(Digit(n / 0x100 / 0x100 / 0x100), Digit(n / 0x100 / 0x100), Digit(n / 0x100), Digit(n));
    NumberOfDigit(n / 0x100 / 0x100 / 0x100);
    NumberOfDigit(n / 0x100 / 0x100);
    NumberOfDigit(n / 0x100);
    NumberOfDigit(n);
    FourDigitsOf(n);
  }

  /** The residue is all that counts. */
  lemma WrapSame(m: int, n: int)
    requires m % TWO_32 == n % TWO_32
    ensures Wrap(m) == Wrap(n)
  {
    hide WordOf, Byte3, Byte2, Byte1, Byte0, Unsigned, Wrap;
    UnsignedOfWrap(m);
    UnsignedOfWrap(n);
    SameUnsigned(Wrap(m), Wrap(n));
  }

  lemma SameUnsigned(v: Word, w: Word)
    requires Unsigned(v) == Unsigned(w)
    ensures v == w
  {
    hide WordOf, Byte3, Byte2, Byte1, Byte0, Number;
    WordOfBytes(v);
    WordOfBytes(w);
    SameNumber(Byte3(v), Byte3(w));
    SameNumber(Byte2(v), Byte2(w));
    SameNumber(Byte1(v), Byte1(w));
    SameNumber(Byte0(v), Byte0(w));
  }

  lemma SameNumber(a: Byte, b: Byte)
    requires Number(a) == Number(b)
    ensures a == b
  {
    hide HexNumber, OfHex;
    ByteOfHex(a);
    ByteOfHex(b);
    SameHex((a >> 4) as bv4, (b >> 4) as bv4);
    SameHex((a & 0xf) as bv4, (b & 0xf) as bv4);
  }

  lemma SameHex(a: bv4, b: bv4)
    requires HexNumber(a) == HexNumber(b)
    ensures a == b
  {
  }

  /** Read as unsigned or as signed, a word wraps to itself. */
  lemma WrapRead(w: Word)
    ensures Wrap(Unsigned(w)) == w && Wrap(Signed(w)) == w
  {
    hide Unsigned, Wrap;
    UnsignedOfWrap(Unsigned(w));
    SameUnsigned(Wrap(Unsigned(w)), w);
    WrapSame(Signed(w), Unsigned(w));
  }

  /** Addition modulo 2 to the power 32. */
  function Sum(x: Word, y: Word): Word {
    Wrap(Unsigned(x) + Unsigned(y))
  }

  /** A sum may be reduced in parts. */
  lemma WrapSum(m: int, n: int)
    ensures Wrap(m + n) == Sum(Wrap(m), Wrap(n))
  {
    hide Unsigned, Wrap;
    UnsignedOfWrap(m);
    UnsignedOfWrap(n);
    assert (m + n) % TWO_32 == (m % TWO_32 + n % TWO_32) % TWO_32;
    WrapSame(m + n, m % TWO_32 + n % TWO_32);
  }
}
