/** Hex, the UTF-8 fallback codec, and the XOR stream cipher. */
module Codecs {
  import opened Sequences
  import opened Sha256
  import opened Words
  import opened Strings

  // -------------------------------------------------------------------- hex

  function HexDigit(n: Byte): char
    requires n < 16
  {
    if n == 0 then '0' else if n == 1 then '1' else if n == 2 then '2' else if n == 3 then '3'
    else if n == 4 then '4' else if n == 5 then '5' else if n == 6 then '6' else if n == 7 then '7'
    else if n == 8 then '8' else if n == 9 then '9' else if n == 10 then 'a' else if n == 11 then 'b'
    else if n == 12 then 'c' else if n == 13 then 'd' else if n == 14 then 'e' else 'f'
  }

  predicate IsLowerHex(c: char) {
    '0' <= c <= '9' || 'a' <= c <= 'f'
  }

  /** Two digits, the first one padded with a zero. */
  function HexPair(b: Byte): (pair: string)
    ensures |pair| == 2
  {
    [HexDigit(b >> 4), HexDigit(b & 0x0f)]
  }

  function ToHex(bytes: seq<Byte>): (hex: string)
    ensures |hex| == 2 * |bytes|
  {
    if bytes == [] then "" else HexPair(bytes[0]) + ToHex(bytes[1..])
  }

  method ToHexLoop(bytes: seq<Byte>) returns (s: string)
    ensures s == ToHex(bytes)
  {
    s := "";
    for i := 0 to |bytes|
      invariant s + ToHex(bytes[i..]) == ToHex(bytes)
    {
      s := s + HexPair(bytes[i]);
    }
  }

  function DigitValue(c: char): Option<Byte> {
    match c
    case '0' => Some(0) case '1' => Some(1) case '2' => Some(2) case '3' => Some(3)
    case '4' => Some(4) case '5' => Some(5) case '6' => Some(6) case '7' => Some(7)
    case '8' => Some(8) case '9' => Some(9) case 'a' => Some(10) case 'b' => Some(11)
    case 'c' => Some(12) case 'd' => Some(13) case 'e' => Some(14) case 'f' => Some(15)
    case 'A' => Some(10) case 'B' => Some(11) case 'C' => Some(12) case 'D' => Some(13)
    case 'E' => Some(14) case 'F' => Some(15)
    case _ => None
  }

  function Nibbles(high: Byte, low: Byte): Byte { (high << 4) | low }
  function Negative(b: Byte): Byte { 0 - b }

  /** `parseInt(pair, 16)` stored in a byte: leading white space and a sign are
      accepted, parsing stops at the first non-digit, and no digits give zero. */
  function ParsePair(c: char, d: char): Byte {
    var first, second := DigitValue(c), DigitValue(d);
    if first.Some? && second.Some? then Nibbles(first.value, second.value)
    else if first.Some? then first.value
    else if second.Some? && (c == '+' || IsSpace(c)) then second.value
    else if second.Some? && c == '-' then Negative(second.value)
    else 0
  }

  // `parseInt(text, 16)`, for any text.

  function HexRun(text: string, sofar: nat): nat {
    if text == "" || DigitValue(text[0]).None? then sofar
    else HexRun(text[1..], 16 * sofar + Number(DigitValue(text[0]).value))
  }

  function Unsigned(text: string): Option<nat> {
    var digits := if |text| >= 2 && text[0] == '0' && text[1] in "xX" then text[2..] else text;
    if digits == "" || DigitValue(digits[0]).None? then None else Some(HexRun(digits, 0))
  }

  function Signed(negative: bool, v: Option<nat>): Option<int> {
    if v.None? then None
    else
      var n: int := v.value;
      Some(if negative then -n else n)
  }

  function ParseInt(text: string): Option<int> {
    var rest := TrimStart(text);
    if rest != "" && rest[0] in "+-" then Signed(rest[0] == '-', Unsigned(rest[1..])) else Signed(false, Unsigned(rest))
  }

  lemma DigitBelow(c: char)
    ensures DigitValue(c).Some? ==> DigitValue(c).value < 16 && !IsSpace(c) && c !in "+-xX"
    ensures DigitValue('0') == Some(0) && (IsSpace(c) ==> c !in "+-")
  {
  }

  lemma JoinsDigits(x: Byte, y: Byte)
    requires x < 16 && y < 16
    ensures Number(Nibbles(x, y)) == 16 * Number(x) + Number(y) < 0x100
    ensures Number(Negative(y)) == (0 - Number(y)) % 0x100
  {
    hide HexNumber;
    NibbleParts(x, y);
    OnlyNibble(x);
    OnlyNibble(y);
    NegativeParts(y);
    NegativeNibble(y as bv4);
  }

  lemma NibbleParts(x: Byte, y: Byte)
    requires x < 16 && y < 16
    ensures (Nibbles(x, y) >> 4) as bv4 == x as bv4 && (Nibbles(x, y) & 0xf) as bv4 == y as bv4
  {
  }

  lemma OnlyNibble(x: Byte)
    requires x < 16
    ensures Number(x) == HexNumber(x as bv4) < 16
  {
    hide HexNumber;
    assert (x >> 4) as bv4 == 0 && (x & 0xf) as bv4 == x as bv4;
    assert HexNumber(0) == 0 by { NoNibble(); }
  }

  lemma NoNibble()
    ensures HexNumber(0) == 0 && HexNumber(15) == 15
  {
  }

  lemma Zero()
    ensures Number(0) == 0
  {
  }

  lemma NegativeParts(y: Byte)
    requires y < 16
    ensures (Negative(y) >> 4) as bv4 == (if y == 0 then 0 else 15) && (Negative(y) & 0xf) as bv4 == 0 - y as bv4
    ensures y == 0 <==> y as bv4 == 0
  {
  }

  lemma NegativeNibble(z: bv4)
    ensures HexNumber(0 - z) == if z == 0 then 0 else 16 - HexNumber(z)
    ensures HexNumber(15) == 15 && HexNumber(0) == 0
  {
  }

  lemma {:induction false} LastDigit(d: char, sofar: nat)
    ensures HexRun([d], sofar) == if DigitValue(d).None? then sofar else 16 * sofar + Number(DigitValue(d).value)
  {
    hide DigitValue, Number;
    assert [d][1..] == [];
    assert forall n :: HexRun([], n) == n;
  }

  lemma ParsesOne(d: char)
    ensures Unsigned([d]) == if DigitValue(d).Some? then Some(Number(DigitValue(d).value)) else None
    ensures Unsigned([]) == None
  {
    hide DigitValue, Number;
    LastDigit(d, 0);
  }

  lemma ParsesTwo(c: char, d: char)
    ensures Unsigned([c, d]) == if DigitValue(c).None? then None
                                else if DigitValue(d).None?
                                  then (if c == '0' && d in "xX" then None else Some(Number(DigitValue(c).value)))
                                else Some(16 * Number(DigitValue(c).value) + Number(DigitValue(d).value))
  {
    hide DigitValue, Number;
    DigitBelow(d);
    assert [c, d][1..] == [d] && [c, d][2..] == [];
    if DigitValue(c).Some? { LastDigit(d, Number(DigitValue(c).value)); }
  }

  lemma TrimmedOne(d: char)
    ensures TrimStart([d]) == if IsSpace(d) then [] else [d]
  {
    hide IsSpace;
    assert [d][1..] == [];
  }

  lemma StartsWithDigit(c: char, d: char)
    requires DigitValue(c).Some?
    ensures ParseInt([c, d]) == Signed(false, Unsigned([c, d]))
  {
    hide DigitValue, IsSpace, Unsigned, Signed, Number;
    DigitBelow(c);
  }

  lemma StartsOtherwise(c: char, d: char)
    requires DigitValue(c).None?
    ensures ParseInt([c, d]) == if IsSpace(c) || c in "+-" then Signed(c == '-', Unsigned([d])) else None
  {
    hide DigitValue, IsSpace, Unsigned, Signed, Number;
    DigitBelow(c);
    DigitBelow(d);
    assert [c, d][1..] == [d];
    ParsesTwo(c, d);
    ParsesOne(d);
    assert Signed(false, None) == Signed(true, None) == None by { StaysNone(); }
    if IsSpace(c) { AfterSpace(c, d); }
  }

  lemma StaysNone()
    ensures Signed(false, None) == Signed(true, None) == None
  {
  }

  lemma AfterSpace(c: char, d: char)
    requires IsSpace(c)
    ensures ParseInt([c, d]) == Signed(false, Unsigned([d]))
  {
    hide DigitValue, IsSpace, Unsigned, Signed, Number;
    assert [c, d][1..] == [d] && [d][1..] == [];
    TrimmedOne(d);
    ParsesOne(d);
    DigitBelow(d);
    StaysNone();
  }

  /** A pair becomes what `parseInt` makes of it, modulo 256, and zero if that is no number. */
  lemma ParsesPair(c: char, d: char)
    ensures Number(ParsePair(c, d)) == match ParseInt([c, d]) case None => 0 case Some(v) => v % 256
  {
    hide DigitValue, IsSpace, Unsigned, ParseInt, Nibbles, Negative, Number;
    assert Number(0) == 0 by { Zero(); }
    DigitBelow(c);
    DigitBelow(d);
    ParsesTwo(c, d);
    ParsesOne(d);
    if DigitValue(c).Some? {
      StartsWithDigit(c, d);
      if DigitValue(d).Some? { JoinsDigits(DigitValue(c).value, DigitValue(d).value); }
    } else {
      StartsOtherwise(c, d);
      if DigitValue(d).Some? { JoinsDigits(0, DigitValue(d).value); }
    }
  }

  function FromHex(hex: string): (bytes: seq<Byte>)
    ensures |bytes| == |hex| / 2
  {
    if |hex| < 2 then [] else [ParsePair(hex[0], hex[1])] + FromHex(hex[2..])
  }

  lemma {:induction false} FromHexAt(hex: string, i: nat)
    requires 2 * i + 1 < |hex|
    ensures FromHex(hex)[i] == ParsePair(hex[2 * i], hex[2 * i + 1])
  {
    hide ParsePair;
    if i > 0 {
      FromHexAt(hex[2..], i - 1);
      assert hex[2..][2 * (i - 1)] == hex[2 * i];
    }
  }

  method FromHexLoop(hex: string) returns (out: array<Byte>)
    ensures fresh(out) && out[..] == FromHex(hex)
  {
    hide ParsePair, FromHex;
    out := new Byte[|hex| / 2];
    for i := 0 to out.Length
      invariant forall j :: 0 <= j < i ==> out[j] == FromHex(hex)[j]
    {
      FromHexAt(hex, i);
      out[i] := ParsePair(hex[2 * i], hex[2 * i + 1]);
    }
  }

  lemma DigitRoundTrip(n: Byte)
    requires n < 16
    ensures DigitValue(HexDigit(n)) == Some(n) && IsLowerHex(HexDigit(n))
  {
  }

  lemma PairRoundTrip(b: Byte)
    ensures ParsePair(HexPair(b)[0], HexPair(b)[1]) == b
  {
    hide HexDigit, DigitValue, IsSpace;
    DigitRoundTrip(b >> 4);
    DigitRoundTrip(b & 0x0f);
    JoinNibbles(b);
  }

  lemma JoinNibbles(b: Byte)
    ensures ((b >> 4) << 4) | (b & 0x0f) == b
  {
  }

  /** Reading back what was written gives the bytes. */
  lemma {:induction false} HexRoundTrip(bytes: seq<Byte>)
    ensures FromHex(ToHex(bytes)) == bytes
  {
    hide HexPair, ParsePair;
    if bytes != [] {
      var hex := ToHex(bytes);
      assert hex[2..] == ToHex(bytes[1..]);
      HexRoundTrip(bytes[1..]);
      PairRoundTrip(bytes[0]);
    }
  }

  predicate Canonical(hex: string) {
    |hex| % 2 == 0 && forall i :: 0 <= i < |hex| ==> IsLowerHex(hex[i])
  }

  lemma LowerHexRoundTrip(c: char)
    requires IsLowerHex(c)
    ensures DigitValue(c).Some? && DigitValue(c).value < 16 && HexDigit(DigitValue(c).value) == c
  {
  }

  lemma PairIsCanonical(c: char, d: char)
    ensures HexPair(ParsePair(c, d)) == [c, d] <==> IsLowerHex(c) && IsLowerHex(d)
  {
    hide HexDigit, DigitValue, IsSpace, IsLowerHex;
    var b := ParsePair(c, d);
    DigitRoundTrip(b >> 4);
    DigitRoundTrip(b & 0x0f);
    if IsLowerHex(c) && IsLowerHex(d) {
      LowerHexRoundTrip(c);
      LowerHexRoundTrip(d);
      NibblesOf(DigitValue(c).value, DigitValue(d).value);
    }
    assert HexPair(b) == [c, d] ==> HexPair(b)[0] == c && HexPair(b)[1] == d;
  }

  lemma NibblesOf(x: Byte, y: Byte)
    requires x < 16 && y < 16
    ensures ((x << 4) | y) >> 4 == x && ((x << 4) | y) & 0x0f == y
  {
  }

  /** Writing back what was read gives the text exactly when the text is an even
      number of lower-case hex digits. */
  lemma {:induction false} HexCanonical(hex: string)
    ensures ToHex(FromHex(hex)) == hex <==> Canonical(hex)
  {
    hide HexPair, ParsePair, IsLowerHex;
    if |hex| >= 2 {
      HexCanonical(hex[2..]);
      PairIsCanonical(hex[0], hex[1]);
      var pair := HexPair(ParsePair(hex[0], hex[1]));
      var rest := ToHex(FromHex(hex[2..]));
      assert FromHex(hex)[1..] == FromHex(hex[2..]);
      assert ToHex(FromHex(hex)) == pair + rest;
      assert hex == [hex[0], hex[1]] + hex[2..];
      assert pair + rest == hex <==> pair == [hex[0], hex[1]] && rest == hex[2..] by {
        if pair + rest == hex {
          assert pair == hex[..2] && rest == hex[2..];
        }
      }
      assert Canonical(hex) <==> IsLowerHex(hex[0]) && IsLowerHex(hex[1]) && Canonical(hex[2..]) by {
        assert forall i :: 2 <= i < |hex| ==> hex[i] == hex[2..][i - 2];
      }
    }
  }

  // ------------------------------------------------------------------ UTF-8

  /** A JavaScript string is a sequence of UTF-16 code units. */
  type Unit = bv16

  function LeadOfTwo(c: Unit): Byte
    requires c < 0x800
  {
    (0xc0 | (c >> 6)) as Byte
  }

  function LeadOfThree(c: Unit): Byte { (0xe0 | (c >> 12)) as Byte }
  function MiddleTail(c: Unit): Byte { (0x80 | ((c >> 6) & 0x3f)) as Byte }
  function LastTail(c: Unit): Byte { (0x80 | (c & 0x3f)) as Byte }

  function EncodeUnit(c: Unit): (bytes: seq<Byte>)
    ensures bytes != []
  {
    if c < 0x80 then [c as Byte]
    else if c < 0x800 then [LeadOfTwo(c), LastTail(c)]
    else [LeadOfThree(c), MiddleTail(c), LastTail(c)]
  }

  function Utf8Encode(s: seq<Unit>): seq<Byte> {
    if s == [] then [] else EncodeUnit(s[0]) + Utf8Encode(s[1..])
  }

  method Utf8EncodeLoop(s: seq<Unit>) returns (bytes: seq<Byte>)
    ensures bytes == Utf8Encode(s)
  {
    hide EncodeUnit;
    bytes := [];
    for i := 0 to |s|
      invariant bytes + Utf8Encode(s[i..]) == Utf8Encode(s)
    {
      bytes := bytes + EncodeUnit(s[i]);
    }
  }

  /** The byte at `i`; one that is not there acts as zero in the bit operations. */
  function ByteAt(bytes: seq<Byte>, i: nat): Byte {
    if i < |bytes| then bytes[i] else 0
  }

  function JoinTwo(lead: Byte, tail: Byte): Unit {
    (((lead & 0x1f) as Unit) << 6) | ((tail & 0x3f) as Unit)
  }

  function JoinThree(lead: Byte, middle: Byte, tail: Byte): Unit {
    (((lead & 0x0f) as Unit) << 12) | (((middle & 0x3f) as Unit) << 6) | ((tail & 0x3f) as Unit)
  }

  /** The unit that starts with byte `c`, and how many bytes it takes. */
  function DecodeUnit(c: Byte, second: Byte, third: Byte): (r: (Unit, nat))
    ensures 1 <= r.1 <= 3
  {
    if c < 0x80 then (c as Unit, 1)
    else if c < 0xe0 then (JoinTwo(c, second), 2)
    else (JoinThree(c, second, third), 3)
  }

  function Drop(bytes: seq<Byte>, n: nat): (rest: seq<Byte>)
    ensures n == 0 ==> rest == bytes
    ensures |rest| == if n <= |bytes| then |bytes| - n else 0
  {
    if n <= |bytes| then bytes[n..] else []
  }

  function Utf8Decode(bytes: seq<Byte>): seq<Unit>
    decreases |bytes|
  {
    if bytes == [] then []
    else
      var (c, n) := DecodeUnit(bytes[0], ByteAt(bytes, 1), ByteAt(bytes, 2));
      [c] + Utf8Decode(Drop(bytes, n))
  }

  method Utf8DecodeLoop(bytes: seq<Byte>) returns (s: seq<Unit>)
    ensures s == Utf8Decode(bytes)
  {
    hide DecodeUnit, ByteAt, Drop;
    s := [];
    var i := 0;
    while i < |bytes|
      invariant 0 <= i
      invariant s + Utf8Decode(Drop(bytes, i)) == Utf8Decode(bytes)
      decreases |bytes| - i
    {
      var (c, n) := DecodeUnit(bytes[i], ByteAt(bytes, i + 1), ByteAt(bytes, i + 2));
      DropTwice(bytes, i, n);
      s := s + [c];
      i := i + n;
    }
  }

  lemma DropTwice(bytes: seq<Byte>, i: nat, n: nat)
    requires i < |bytes|
    ensures var rest := Drop(bytes, i);
            && rest[0] == bytes[i]
            && ByteAt(rest, 1) == ByteAt(bytes, i + 1) && ByteAt(rest, 2) == ByteAt(bytes, i + 2)
            && Drop(rest, n) == Drop(bytes, i + n)
  {
  }

  lemma FrontBytes(front: seq<Byte>, rest: seq<Byte>)
    requires front != []
    ensures var bytes := front + rest;
            && bytes[0] == front[0]
            && (|front| > 1 ==> ByteAt(bytes, 1) == front[1])
            && (|front| > 2 ==> ByteAt(bytes, 2) == front[2])
  {
  }

  lemma UnitRoundTrip(c: Unit, rest: seq<Byte>)
    ensures var bytes := EncodeUnit(c) + rest;
            DecodeUnit(bytes[0], ByteAt(bytes, 1), ByteAt(bytes, 2)) == (c, |EncodeUnit(c)|)
  {
    hide ByteAt, DecodeUnit;
    FrontBytes(EncodeUnit(c), rest);
    var bytes := EncodeUnit(c) + rest;
    DecodeEncoded(c, ByteAt(bytes, 1), ByteAt(bytes, 2));
  }

  lemma DecodeEncoded(c: Unit, second: Byte, third: Byte)
    requires |EncodeUnit(c)| > 1 ==> second == EncodeUnit(c)[1]
    requires |EncodeUnit(c)| > 2 ==> third == EncodeUnit(c)[2]
    ensures DecodeUnit(EncodeUnit(c)[0], second, third) == (c, |EncodeUnit(c)|)
  {
    hide LeadOfTwo, LeadOfThree, MiddleTail, LastTail, JoinTwo, JoinThree;
    if c < 0x80 {
      OneByteBits(c);
    } else if c < 0x800 {
      TwoByteBits(c);
    } else {
      ThreeByteBits(c);
    }
  }

  lemma OneByteBits(c: Unit)
    requires c < 0x80
    ensures c as Byte < 0x80 && (c as Byte) as Unit == c
  {
  }

  lemma TwoByteBits(c: Unit)
    requires 0x80 <= c < 0x800
    ensures 0x80 <= LeadOfTwo(c) < 0xe0 && JoinTwo(LeadOfTwo(c), LastTail(c)) == c
  {
  }

  lemma ThreeByteBits(c: Unit)
    requires 0x800 <= c
    ensures 0xe0 <= LeadOfThree(c) && JoinThree(LeadOfThree(c), MiddleTail(c), LastTail(c)) == c
  {
  }

  /** Decoding undoes encoding on every sequence of code units. */
  lemma {:induction false} Utf8RoundTrip(s: seq<Unit>)
    ensures Utf8Decode(Utf8Encode(s)) == s
  {
    hide EncodeUnit, DecodeUnit;
    if s != [] {
      var head, rest := EncodeUnit(s[0]), Utf8Encode(s[1..]);
      UnitRoundTrip(s[0], rest);
      assert Drop(head + rest, |head|) == rest;
      Utf8RoundTrip(s[1..]);
    }
  }

  predicate IsTail(b: Byte) { 0x80 <= b <= 0xbf }

  /** A well-formed character of at most three octets, by the grammar of section 4
      of RFC 3629. */
  predicate WellFormed(bytes: seq<Byte>) {
    || (|bytes| == 1 && bytes[0] <= 0x7f)
    || (|bytes| == 2 && 0xc2 <= bytes[0] <= 0xdf && IsTail(bytes[1]))
    || (|bytes| == 3 && IsTail(bytes[2]) &&
        ((bytes[0] == 0xe0 && 0xa0 <= bytes[1] <= 0xbf) || (0xe1 <= bytes[0] <= 0xec && IsTail(bytes[1]))
         || (bytes[0] == 0xed && 0x80 <= bytes[1] <= 0x9f)
           || (0xee <= bytes[0] && bytes[0] <= 0xef && IsTail(bytes[1]))))
  }

  /** The fallback writes standard UTF-8 exactly for the units that are no surrogates. */
  lemma WellFormedExactly(c: Unit)
    ensures WellFormed(EncodeUnit(c)) <==> !(0xd800 <= c <= 0xdfff)
  {
  }

  lemma PairReads(a: Byte, b: Byte)
    requires 0xc2 <= a <= 0xdf && IsTail(b)
    ensures 0x80 <= JoinTwo(a, b) < 0x800 && LeadOfTwo(JoinTwo(a, b)) == a && LastTail(JoinTwo(a, b)) == b
  {
  }

  lemma TripleReads(a: Byte, b: Byte, c: Byte)
    requires 0xe0 <= a <= 0xef && IsTail(b) && IsTail(c) && (a == 0xe0 ==> 0xa0 <= b)
    ensures var u := JoinThree(a, b, c);
            u >= 0x800 && LeadOfThree(u) == a && MiddleTail(u) == b && LastTail(u) == c
  {
  }

  /** Read the other way: every well-formed character is what its unit is written as. */
  lemma WellFormedReads(bytes: seq<Byte>)
    requires WellFormed(bytes)
    ensures var (c, n) := DecodeUnit(bytes[0], ByteAt(bytes, 1), ByteAt(bytes, 2));
            n == |bytes| && EncodeUnit(c) == bytes
  {
    hide JoinTwo, JoinThree, LeadOfTwo, LeadOfThree, MiddleTail, LastTail;
    if |bytes| == 2 {
      PairReads(bytes[0], bytes[1]);
    } else if |bytes| == 3 {
      TripleReads(bytes[0], bytes[1], bytes[2]);
    }
  }

  /** A text that breaks off inside its last character reads as if zero bytes stood there. */
  lemma BrokenOff(lead: Byte, second: Byte)
    ensures lead >= 0x80 ==> Utf8Decode([lead]) == Utf8Decode(if lead < 0xe0 then [lead, 0] else [lead, 0, 0])
    ensures lead >= 0xe0 ==> Utf8Decode([lead, second]) == Utf8Decode([lead, second, 0])
  {
    hide JoinTwo, JoinThree;
  }

  // ---------------------------------------------------------------- the cipher

  function KeystreamBlock(key: seq<Byte>, nonce: seq<Byte>, counter: nat): (block: seq<Byte>)
    ensures |block| == 32
  {
    Hash(key + nonce + AsBytes(Digits(counter % 0x1_0000_0000, 4)))
  }

  /** Counter mode: every byte meets its own byte of the keystream. */
  function XorCrypt(key: seq<Byte>, nonce: seq<Byte>, input: seq<Byte>): (out: seq<Byte>)
    ensures |out| == |input|
  {
    seq(|input|, i requires 0 <= i < |input| => input[i] ^ KeystreamBlock(key, nonce, i / 32)[i % 32])
  }

  /** The counter in a byte's keystream block is the number of whole blocks before it, as
      four bytes. */
  lemma CipherByte(key: seq<Byte>, nonce: seq<Byte>, input: seq<Byte>, i: nat) returns (counter: seq<nat>)
    requires i < |input|
    ensures |counter| == 4 && Value(counter) == i / 32 % 0x1_0000_0000
    ensures forall k :: 0 <= k < 4 ==> counter[k] < 0x100
    ensures XorCrypt(key, nonce, input)[i] == input[i] ^ Hash(key + nonce + AsBytes(counter))[i % 32]
  {
    hide Hash, Value, AsBytes;
    counter := Digits(i / 32 % 0x1_0000_0000, 4);
    FourDigits(i / 32 % 0x1_0000_0000);
  }

  /** Two different inputs that the hash does not tell apart. */
  ghost predicate Collision(a: seq<Byte>, b: seq<Byte>) {
    a != b && Hash(a) == Hash(b)
  }

  lemma ByteTells(x: nat, y: nat)
    requires x < 0x100 && y < 0x100
    ensures Digit(x) == Digit(y) ==> x == y
  {
    hide Digit, Number;
    NumberOfDigit(x);
    NumberOfDigit(y);
  }

  lemma BytesTell(a: seq<nat>, b: seq<nat>)
    requires |a| == |b| && forall i :: 0 <= i < |a| ==> a[i] < 0x100 && b[i] < 0x100
    ensures AsBytes(a) == AsBytes(b) ==> a == b
  {
    if AsBytes(a) == AsBytes(b) {
      forall i | 0 <= i < |a| ensures a[i] == b[i] {
        ByteTells(a[i], b[i]);
        assert AsBytes(a)[i] == AsBytes(b)[i];
      }
    }
  }

  /** No two blocks of a message have the same keystream, short of a collision. */
  lemma BlocksDiffer(key: seq<Byte>, nonce: seq<Byte>, i: nat, j: nat) returns (a: seq<Byte>, b: seq<Byte>)
    requires i < j < 0x1_0000_0000
    ensures KeystreamBlock(key, nonce, i) == KeystreamBlock(key, nonce, j) ==> Collision(a, b)
  {
    hide Hash, Value, AsBytes, Digits;
    var x, y := Digits(i, 4), Digits(j, 4);
    FourDigits(i);
    FourDigits(j);
    BytesTell(x, y);
    a, b := key + nonce + AsBytes(x), key + nonce + AsBytes(y);
    SameBehind(key + nonce, AsBytes(x), AsBytes(y));
  }

  lemma SameBehind(head: seq<Byte>, x: seq<Byte>, y: seq<Byte>)
    ensures head + x == head + y ==> x == y
  {
    assert (head + x)[|head|..] == x && (head + y)[|head|..] == y;
  }

  method XorCryptLoop(key: seq<Byte>, nonce: seq<Byte>, input: seq<Byte>) returns (out: array<Byte>)
    ensures fresh(out) && out[..] == XorCrypt(key, nonce, input)
  {
    hide KeystreamBlock;
    out := new Byte[|input|];
    var block := 0;
    var ks := KeystreamBlock(key, nonce, block);
    for i := 0 to |input|
      invariant block == if i == 0 then 0 else (i - 1) / 32
      invariant ks == KeystreamBlock(key, nonce, block)
      invariant forall j :: 0 <= j < i ==> out[j] == XorCrypt(key, nonce, input)[j]
    {
      var pos := i % 32;
      if i != 0 && pos == 0 {
        block := block + 1;
        ks := KeystreamBlock(key, nonce, block);
      }
      assert block == i / 32;
      out[i] := input[i] ^ ks[pos];
    }
  }

  /** One keystream turns different inputs into different outputs. */
  lemma XorCryptTells(key: seq<Byte>, nonce: seq<Byte>, a: seq<Byte>, b: seq<Byte>)
    ensures XorCrypt(key, nonce, a) == XorCrypt(key, nonce, b) <==> a == b
  {
    hide XorCrypt;
    XorCryptInvolution(key, nonce, a);
    XorCryptInvolution(key, nonce, b);
  }

  /** The same call encrypts and decrypts. */
  lemma XorCryptInvolution(key: seq<Byte>, nonce: seq<Byte>, input: seq<Byte>)
    ensures XorCrypt(key, nonce, XorCrypt(key, nonce, input)) == input
  {
    hide KeystreamBlock;
    forall i | 0 <= i < |input| ensures XorCrypt(key, nonce, XorCrypt(key, nonce, input))[i] == input[i] {
      XorTwice(input[i], KeystreamBlock(key, nonce, i / 32)[i % 32]);
    }
  }

  lemma XorTwice(x: Byte, k: Byte)
    ensures (x ^ k) ^ k == x
  {
  }

  function ComputeMac(key: seq<Byte>, nonce: seq<Byte>, plaintext: seq<Byte>): (mac: seq<Byte>)
    ensures |mac| == 32
  {
    Hash(key + nonce + plaintext)
  }

  /** Comparison without an early exit. */
  method CtEqual(a: seq<Byte>, b: seq<Byte>) returns (equal: bool)
    ensures equal == (a == b)
  {
    if |a| != |b| { return false; }
    var diff: Byte := 0;
    for i := 0 to |a|
      invariant diff == 0 <==> a[..i] == b[..i]
    {
      DiffAccumulates(diff, a[i], b[i]);
      assert a[..i + 1] == a[..i] + [a[i]] && b[..i + 1] == b[..i] + [b[i]];
      diff := diff | (a[i] ^ b[i]);
    }
    assert a[..|a|] == a && b[..|b|] == b;
    equal := diff == 0;
  }

  lemma DiffAccumulates(diff: Byte, x: Byte, y: Byte)
    ensures diff | (x ^ y) == 0 <==> diff == 0 && x == y
  {
  }
}
