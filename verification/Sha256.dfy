/** SHA-256: the padding of section 5.1.1 and the compression of section 6.2.2 of
    FIPS 180-4, against the loops that compute them. */
module Sha256 {
  import opened Words
  import opened Sha256Constants

  // ---------------------------------------------------------------- padding

  /** The number of zero bytes between the marker and the length. */
  function ZeroBytes(n: nat): nat {
    (56 - (n + 1) % 64 + 64) % 64
  }

  function PaddedLength(n: nat): nat {
    n + 1 + ZeroBytes(n) + 8
  }

  /** The `k` low base-256 digits of `n`, most significant first. */
  function Digits(n: nat, k: nat): (digits: seq<nat>)
    ensures |digits| == k && forall i :: 0 <= i < k ==> digits[i] < 0x100
  {
    if k == 0 then [] else Digits(n / 0x100, k - 1) + [n % 0x100]
  }

  function Value(digits: seq<nat>): nat {
    if digits == [] then 0 else Value(digits[..|digits| - 1]) * 0x100 + digits[|digits| - 1]
  }

  function AsBytes(digits: seq<nat>): (bytes: seq<Byte>)
    requires forall i :: 0 <= i < |digits| ==> digits[i] < 0x100
    ensures |bytes| == |digits|
  {
    seq(|digits|, i requires 0 <= i < |digits| => Digit(digits[i]))
  }

  /** The 64-bit length field: the high word of the bit count, then the low word. */
  function LengthDigits(n: nat): (digits: seq<nat>)
    ensures |digits| == 8 && forall i :: 0 <= i < 8 ==> digits[i] < 0x100
  {
    Digits(8 * n / 0x1_0000_0000 % 0x1_0000_0000, 4) + Digits(8 * n % 0x1_0000_0000, 4)
  }

  function Zeros(n: nat): seq<Byte> {
    seq(n, _ => 0)
  }

  /** Section 5.1.1: the message, a one bit, zero bits, the length in 64 bits. */
  function Pad(msg: seq<Byte>): (padded: seq<Byte>)
    ensures |padded| == PaddedLength(|msg|)
  {
    msg + [0x80] + Zeros(ZeroBytes(|msg|)) + AsBytes(LengthDigits(|msg|))
  }

  /** The padded length is the least multiple of 64 with room for the marker and
      the length field. */
  lemma PaddedLengthIsLeast(n: nat)
    ensures PaddedLength(n) % 64 == 0 && PaddedLength(n) >= n + 9
    ensures forall m: nat :: m % 64 == 0 && m >= n + 9 ==> PaddedLength(n) <= m
  {
    var r := (n + 1) % 64;
    assert n + 1 == (n + 1) / 64 * 64 + r;
    assert PaddedLength(n) < n + 9 + 64;
    if r <= 56 {
      assert ZeroBytes(n) == 56 - r;
    } else {
      assert ZeroBytes(n) == 120 - r;
    }
  }

  lemma {:induction false} FourDigits(n: nat)
    requires n < 0x1_0000_0000
    ensures Value(Digits(n, 4)) == n
  {
    DigitsValue(n, 4, 0x1_0000_0000);
  }

  lemma {:induction false} DigitsValue(n: nat, k: nat, bound: nat)
    requires bound == Pow256(k) && n < bound
    ensures Value(Digits(n, k)) == n
  {
    if k > 0 {
      DigitsValue(n / 0x100, k - 1, Pow256(k - 1));
      assert Digits(n, k)[..k - 1] == Digits(n / 0x100, k - 1);
    }
  }

  function Pow256(k: nat): nat {
    if k == 0 then 1 else 0x100 * Pow256(k - 1)
  }

  lemma {:induction false} ValueAppend(high: seq<nat>, low: seq<nat>)
    ensures Value(high + low) == Value(high) * Pow256(|low|) + Value(low)
  {
    if low == [] {
      assert high + low == high;
    } else {
      var init := low[..|low| - 1];
      assert (high + low)[..|high + low| - 1] == high + init;
      ValueAppend(high, init);
    }
  }

  /** The length field holds the bit count of every message that a 64-bit count can
      measure, although the code writes its two words separately. */
  lemma LengthFieldValue(n: nat)
    requires 8 * n < 0x1_0000_0000_0000_0000
    ensures Value(LengthDigits(n)) == 8 * n
  {
    var high, low := 8 * n / 0x1_0000_0000, 8 * n % 0x1_0000_0000;
    assert high % 0x1_0000_0000 == high;
    FourDigits(high);
    FourDigits(low);
    ValueAppend(Digits(high, 4), Digits(low, 4));
    assert Pow256(4) == 0x1_0000_0000;
  }

  /** The message before the last marker, once the length field is cut off. */
  function Unpad(padded: seq<Byte>): seq<Byte>
    requires |padded| >= 8
  {
    StripZeros(padded[..|padded| - 8])
  }

  function StripZeros(s: seq<Byte>): seq<Byte> {
    if s == [] then []
    else if s[|s| - 1] == 0 then StripZeros(s[..|s| - 1])
    else s[..|s| - 1]
  }

  lemma {:induction false} StripZerosStops(msg: seq<Byte>, zeros: nat)
    ensures StripZeros(msg + [0x80] + Zeros(zeros)) == msg
  {
    var s := msg + [0x80] + Zeros(zeros);
    if zeros == 0 {
      assert s == msg + [0x80];
    } else {
      StripZerosStops(msg, zeros - 1);
      assert s[..|s| - 1] == msg + [0x80] + Zeros(zeros - 1);
    }
  }

  /** Padding loses nothing: it can be undone, so it is injective. */
  lemma UnpadPad(msg: seq<Byte>)
    ensures Unpad(Pad(msg)) == msg
  {
    StripZerosStops(msg, ZeroBytes(|msg|));
    assert Pad(msg)[..|Pad(msg)| - 8] == msg + [0x80] + Zeros(ZeroBytes(|msg|));
  }

  lemma PadAt(msg: seq<Byte>, j: nat)
    requires j < PaddedLength(|msg|)
    ensures Pad(msg)[j] == if j < |msg| then msg[j]
                           else if j == |msg| then 0x80
                           else if j < PaddedLength(|msg|) - 8 then 0
                           else AsBytes(LengthDigits(|msg|))[j - (PaddedLength(|msg|) - 8)]
  {
    hide LengthDigits, AsBytes;
  }

  /** Fills the padded buffer in place. */
  method PadInto(msg: seq<Byte>) returns (padded: array<Byte>)
    ensures fresh(padded) && padded[..] == Pad(msg)
  {
    hide LengthDigits, AsBytes, Pad;
    var n := |msg|;
    var withOne := n + 1;
    var totalLen := withOne + (56 - withOne % 64 + 64) % 64 + 8;
    padded := new Byte[totalLen](_ => 0);
    for i := 0 to n
      invariant forall j :: 0 <= j < i ==> padded[j] == msg[j]
      invariant forall j :: i <= j < totalLen ==> padded[j] == 0
    {
      padded[i] := msg[i];
    }
    padded[n] := 0x80;
    var length := AsBytes(LengthDigits(n));
    for i := 0 to 8
      invariant forall j :: 0 <= j < n ==> padded[j] == msg[j]
      invariant padded[n] == 0x80
      invariant forall j :: n < j < totalLen - 8 ==> padded[j] == 0
      invariant forall j :: 0 <= j < i ==> padded[totalLen - 8 + j] == length[j]
    {
      padded[totalLen - 8 + i] := length[i];
    }
    forall j | 0 <= j < totalLen ensures padded[j] == Pad(msg)[j] {
      PadAt(msg, j);
      assert totalLen - 8 <= j ==> padded[totalLen - 8 + (j - (totalLen - 8))] == length[j - (totalLen - 8)];
    }
  }

  // ------------------------------------------------------------ compression

  function Rotr(x: Word, n: Word): Word
    requires 0 < n < 32
  {
    (x >> n) | (x << (32 - n))
  }

  function Xor(x: Word, y: Word, z: Word): Word { x ^ y ^ z }

  function Sigma0(x: Word): Word { Xor(Rotr(x, 2), Rotr(x, 13), Rotr(x, 22)) }
  function Sigma1(x: Word): Word { Xor(Rotr(x, 6), Rotr(x, 11), Rotr(x, 25)) }
  function SmallSigma0(x: Word): Word { Xor(Rotr(x, 7), Rotr(x, 18), x >> 3) }
  function SmallSigma1(x: Word): Word { Xor(Rotr(x, 17), Rotr(x, 19), x >> 10) }
  function Ch(x: Word, y: Word, z: Word): Word { (x & y) ^ (!x & z) }
  function Maj(x: Word, y: Word, z: Word): Word { (x & y) ^ (x & z) ^ (y & z) }

  lemma Rotates(x: Word)
    ensures Rotr(x, 2) == x.RotateRight(2) && Rotr(x, 13) == x.RotateRight(13) && Rotr(x, 22) == x.RotateRight(22)
    ensures Rotr(x, 6) == x.RotateRight(6) && Rotr(x, 11) == x.RotateRight(11) && Rotr(x, 25) == x.RotateRight(25)
    ensures Rotr(x, 7) == x.RotateRight(7) && Rotr(x, 18) == x.RotateRight(18)
    ensures Rotr(x, 17) == x.RotateRight(17) && Rotr(x, 19) == x.RotateRight(19)
  {
  }

  /** The functions of section 4.1.2 of FIPS 180-4, with rotation as an operation on words. */
  lemma SigmasTell(x: Word)
    ensures Sigma0(x) == Xor(x.RotateRight(2), x.RotateRight(13), x.RotateRight(22))
    ensures Sigma1(x) == Xor(x.RotateRight(6), x.RotateRight(11), x.RotateRight(25))
    ensures SmallSigma0(x) == Xor(x.RotateRight(7), x.RotateRight(18), x >> 3)
    ensures SmallSigma1(x) == Xor(x.RotateRight(17), x.RotateRight(19), x >> 10)
  {
    hide Rotr, Xor;
    Rotates(x);
  }

  /** `Ch` chooses each bit from `y` or `z` by that of `x`. */
  lemma Chooses(x: Word, y: Word, z: Word)
    ensures x & Ch(x, y, z) == x & y
    ensures !x & Ch(x, y, z) == !x & z
  {
  }

  /** `Maj` takes the bit that two of the three have. */
  lemma Majority(x: Word, y: Word, z: Word)
    ensures !(x ^ y) & Maj(x, y, z) == !(x ^ y) & x
    ensures (x ^ y) & Maj(x, y, z) == (x ^ y) & z
  {
  }

  /** The message schedule, as a recurrence over the sixteen words of a block. */
  function Schedule(block: seq<Word>, t: nat): Word
    requires |block| == 16
  {
    if t < 16 then block[t]
    else Sum(Sum(Schedule(block, t - 16), SmallSigma0(Schedule(block, t - 15))),
             Sum(Schedule(block, t - 7), SmallSigma1(Schedule(block, t - 2))))
  }

  /** A message block with the chaining value it starts from. */
  datatype Round = Round(h: seq<Word>, block: seq<Word>) {
    predicate Ok() { |h| == 8 && |block| == 16 }

    /** The standard's eight variables are windows on two sequences: `a`, `b`, `c`,
        `d` at time t are A(t) .. A(t - 3), and `e` .. `h` are E(t) .. E(t - 3). */
    function A(t: int): Word
      requires Ok() && -3 <= t <= 64
      decreases t + 3, 1
    {
      if t <= 0 then h[-t] else Sum(T1(t - 1), T2(t - 1))
    }

    function E(t: int): Word
      requires Ok() && -3 <= t <= 64
      decreases t + 3, 1
    {
      if t <= 0 then h[4 - t] else Sum(A(t - 4), T1(t - 1))
    }

    function T1(t: nat): Word
      requires Ok() && t < 64
      decreases t + 3, 2
    {
      Sum(Sum(E(t - 3), Sigma1(E(t))), Sum(Ch(E(t), E(t - 1), E(t - 2)), Sum(RoundConstant(t), Schedule(block, t))))
    }

    function T2(t: nat): Word
      requires Ok() && t < 64
      decreases t + 3, 2
    {
      Sum(Sigma0(A(t)), Maj(A(t), A(t - 1), A(t - 2)))
    }

    /** The eight variables, `a` first, when `t` rounds are done. */
    function Variables(t: int): (v: seq<Word>)
      requires Ok() && 0 <= t <= 64
      ensures |v| == 8
    {
      [A(t), A(t - 1), A(t - 2), A(t - 3), E(t), E(t - 1), E(t - 2), E(t - 3)]
    }

    function Chained(): (next: seq<Word>)
      requires Ok()
      ensures |next| == 8
    {
      Added(h, Variables(64))
    }
  }

  function Added(h: seq<Word>, v: seq<Word>): (next: seq<Word>)
    requires |h| == |v| == 8
    ensures |next| == 8
  {
    [Sum(h[0], v[0]), Sum(h[1], v[1]), Sum(h[2], v[2]), Sum(h[3], v[3]),
     Sum(h[4], v[4]), Sum(h[5], v[5]), Sum(h[6], v[6]), Sum(h[7], v[7])]
  }

  lemma SumTells(x: Word, y: Word)
    ensures Unsigned(Sum(x, y)) == (Unsigned(x) + Unsigned(y)) % TWO_32
  {
    hide Unsigned, Wrap;
    UnsignedOfWrap(Unsigned(x) + Unsigned(y));
  }

  /** The chaining value is added up word by word, modulo 2 to the power 32. */
  lemma AddedTells(h: seq<Word>, v: seq<Word>, i: nat)
    requires |h| == |v| == 8 && i < 8
    ensures Unsigned(Added(h, v)[i]) == (Unsigned(h[i]) + Unsigned(v[i])) % TWO_32
  {
    hide Unsigned, Sum;
    var next := Added(h, v);
    SumTells(h[i], v[i]);
    assert next[i] == Sum(h[i], v[i]);
  }

  /** The code adds signed and unsigned readings up exactly and reduces the sum once;
      that is the standard's addition of the words, one by one. */
  lemma SumOfFive(h: Word, s: Word, c: Word, k: Word, w: Word)
    ensures Wrap(Unsigned(h) + Signed(s) + Signed(c) + Unsigned(k) + Unsigned(w)) == Sum(Sum(h, s), Sum(c, Sum(k, w)))
  {
    hide Sum, Wrap, Signed, Unsigned;
    WrapRead(h);
    WrapRead(s);
    WrapRead(c);
    WrapRead(k);
    WrapRead(w);
    WrapSum(Unsigned(k), Unsigned(w));
    WrapSum(Signed(c), Unsigned(k) + Unsigned(w));
    WrapSum(Unsigned(h), Signed(s));
    WrapSum(Unsigned(h) + Signed(s), Signed(c) + (Unsigned(k) + Unsigned(w)));
  }

  lemma SumOfFour(w: Word, s: Word, v: Word, t: Word)
    ensures Wrap(Unsigned(w) + Signed(s) + Unsigned(v) + Signed(t)) == Sum(Sum(w, s), Sum(v, t))
  {
    hide Sum, Wrap, Signed, Unsigned;
    WrapRead(w);
    WrapRead(s);
    WrapRead(v);
    WrapRead(t);
    WrapSum(Unsigned(w), Signed(s));
    WrapSum(Unsigned(v), Signed(t));
    WrapSum(Unsigned(w) + Signed(s), Unsigned(v) + Signed(t));
  }

  lemma SumOfSigned(s: Word, m: Word)
    ensures Wrap(Signed(s) + Signed(m)) == Sum(s, m)
  {
    hide Sum, Wrap, Signed, Unsigned;
    WrapRead(s);
    WrapRead(m);
    WrapSum(Signed(s), Signed(m));
  }

  /** Fills the message schedule in place. */
  method ExpandSchedule(block: seq<Word>, w: array<Word>)
    requires |block| == 16 && w.Length == 64
    modifies w
    ensures forall t :: 0 <= t < 64 ==> w[t] == Schedule(block, t)
  {
    hide Sum, SmallSigma0, SmallSigma1, Wrap, Signed, Unsigned;
    for i := 0 to 16
      invariant forall j :: 0 <= j < i ==> w[j] == Schedule(block, j)
    {
      w[i] := block[i];
    }
    for i := 16 to 64
      invariant forall j :: 0 <= j < i ==> w[j] == Schedule(block, j)
    {
      var s0 := SmallSigma0(w[i - 15]);
      var s1 := SmallSigma1(w[i - 2]);
      SumOfFour(w[i - 16], s0, w[i - 7], s1);
      w[i] := Wrap(Unsigned(w[i - 16]) + Signed(s0) + Unsigned(w[i - 7]) + Signed(s1));
    }
  }

  /** The two sums of a round, as the loop computes them. */
  function FirstSum(v: seq<Word>, k: Word, w: Word): Word
    requires |v| == 8
  {
    Wrap(Unsigned(v[7]) + Signed(Sigma1(v[4])) + Signed(Ch(v[4], v[5], v[6])) + Unsigned(k) + Unsigned(w))
  }

  function SecondSum(v: seq<Word>): Word
    requires |v| == 8
  {
    Wrap(Signed(Sigma0(v[0])) + Signed(Maj(v[0], v[1], v[2])))
  }

  /** The variables move on by one place, with a new `a` and a new `e`. */
  function Turned(v: seq<Word>, a: Word, e: Word): (next: seq<Word>)
    requires |v| == 8
    ensures |next| == 8
  {
    [a, v[0], v[1], v[2], e, v[4], v[5], v[6]]
  }

  lemma Starts(r: Round)
    requires r.Ok()
    ensures r.Variables(0) == r.h
  {
    hide Sum;
  }

  lemma Turns(r: Round, t: nat)
    requires r.Ok() && t < 64
    ensures var v := r.Variables(t);
            var t1, t2 := FirstSum(v, RoundConstant(t), Schedule(r.block, t)), SecondSum(v);
            r.Variables(t + 1) == Turned(v, Sum(t1, t2), Sum(v[3], t1))
  {
    hide Sum, Sigma0, Sigma1, Ch, Maj, Schedule, Wrap, Signed, Unsigned, Turned, FirstSum, SecondSum, RoundConstant;
    hide Round.A, Round.E, Round.T1, Round.T2, Round.Variables;
    var v := r.Variables(t);
    VariablesAt(r, t);
    VariablesAt(r, t + 1);
    FirstSumIs(r, t);
    SecondSumIs(r, t);
    Recurrence(r, t);
    TurnedAt(v, r.A(t + 1), r.E(t + 1));
  }

  lemma VariablesAt(r: Round, t: nat)
    requires r.Ok() && t <= 64
    ensures var v := r.Variables(t);
            && v[0] == r.A(t) && v[1] == r.A(t - 1) && v[2] == r.A(t - 2) && v[3] == r.A(t - 3)
            && v[4] == r.E(t) && v[5] == r.E(t - 1) && v[6] == r.E(t - 2) && v[7] == r.E(t - 3)
  {
    hide Round.A, Round.E;
  }

  lemma {:induction false} FirstSumIs(r: Round, t: nat)
    requires r.Ok() && t < 64
    ensures FirstSum(r.Variables(t), RoundConstant(t), Schedule(r.block, t)) == r.T1(t)
  {
    hide RoundConstant;
    hide Sum, Sigma1, Ch, Schedule, Wrap, Signed, Unsigned, Round.A, Round.E, Round.Variables;
    VariablesAt(r, t);
    SumOfFive(r.E(t - 3), Sigma1(r.E(t)), Ch(r.E(t), r.E(t - 1), r.E(t - 2)), RoundConstant(t), Schedule(r.block, t));
  }

  lemma {:induction false} SecondSumIs(r: Round, t: nat)
    requires r.Ok() && t < 64
    ensures SecondSum(r.Variables(t)) == r.T2(t)
  {
    hide Sum, Sigma0, Maj, Wrap, Signed, Unsigned, Round.A, Round.E, Round.Variables;
    VariablesAt(r, t);
    SumOfSigned(Sigma0(r.A(t)), Maj(r.A(t), r.A(t - 1), r.A(t - 2)));
  }

  lemma {:induction false} Recurrence(r: Round, t: nat)
    requires r.Ok() && t < 64
    ensures r.A(t + 1) == Sum(r.T1(t), r.T2(t)) && r.E(t + 1) == Sum(r.A(t - 3), r.T1(t))
  {
    hide Sum, Round.T1, Round.T2;
  }

  lemma TurnedAt(v: seq<Word>, a: Word, e: Word)
    requires |v| == 8
    ensures var next := Turned(v, a, e);
            && next[0] == a && next[1] == v[0] && next[2] == v[1] && next[3] == v[2]
            && next[4] == e && next[5] == v[4] && next[6] == v[5] && next[7] == v[6]
  {
  }

  /** The sixty-four rounds: the rolling variables compute the two recurrences. */
  method Rounds(h: seq<Word>, block: seq<Word>, w: seq<Word>) returns (next: seq<Word>)
    requires Round(h, block).Ok() && |w| == 64 && forall t :: 0 <= t < 64 ==> w[t] == Schedule(block, t)
    ensures next == Round(h, block).Chained()
  {
    hide RoundConstant;
    hide Sum, Sigma0, Sigma1, Ch, Maj, Schedule, Wrap, Signed, Unsigned, Turned, Round.Variables;
    ghost var r := Round(h, block);
    var a, b, c, d, e, f, g, hh := h[0], h[1], h[2], h[3], h[4], h[5], h[6], h[7];
    ghost var v := h;
    Starts(r);
    for i := 0 to 64
      invariant |v| == 8 && v[0] == a && v[1] == b && v[2] == c && v[3] == d && v[4] == e && v[5] == f && v[6] == g
          && v[7] == hh
      invariant v == r.Variables(i)
    {
      Turns(r, i);
      var t1 := Wrap(Unsigned(hh) + Signed(Sigma1(e)) + Signed(Ch(e, f, g)) + Unsigned(RoundConstant(i))
                     + Unsigned(w[i]));
      var t2 := Wrap(Signed(Sigma0(a)) + Signed(Maj(a, b, c)));
      TurnedAt(v, Sum(t1, t2), Sum(d, t1));
      v := Turned(v, Sum(t1, t2), Sum(d, t1));
      hh := g;
      g := f;
      f := e;
      e := Sum(d, t1);
      d := c;
      c := b;
      b := a;
      a := Sum(t1, t2);
    }
    next := [Sum(h[0], a), Sum(h[1], b), Sum(h[2], c), Sum(h[3], d), Sum(h[4], e), Sum(h[5], f), Sum(h[6], g),
             Sum(h[7], hh)];
  }

  // ------------------------------------------------------------------ digest

  /** `getUint32` with the most significant byte first. */
  function WordAt(bytes: seq<Byte>, at: nat): Word
    requires at + 4 <= |bytes|
  {
    WordOf(bytes[at], bytes[at + 1], bytes[at + 2], bytes[at + 3])
  }

  function BlockAt(bytes: seq<Byte>, off: nat): (block: seq<Word>)
    requires off + 64 <= |bytes|
    ensures |block| == 16
  {
    seq(16, i requires 0 <= i < 16 => WordAt(bytes, off + 4 * i))
  }

  /** The words of a block hold its sixty-four bytes in order, four to a word. */
  lemma BlockTells(bytes: seq<Byte>, off: nat, k: nat)
    requires off + 64 <= |bytes| && k < 64
    ensures var w := BlockAt(bytes, off)[k / 4];
            bytes[off + k] == if k % 4 == 0 then Byte3(w) else if k % 4 == 1 then Byte2(w)
                              else if k % 4 == 2 then Byte1(w) else Byte0(w)
  {
    hide WordOf, Byte3, Byte2, Byte1, Byte0;
    var at := off + 4 * (k / 4);
    BytesOfWord(bytes[at], bytes[at + 1], bytes[at + 2], bytes[at + 3]);
  }

  /** The chaining value after the first `n` blocks of a padded message. */
  function Chain(padded: seq<Byte>, n: nat): (h: seq<Word>)
    requires 64 * n <= |padded|
    ensures |h| == 8
  {
    if n == 0 then H0 else Round(Chain(padded, n - 1), BlockAt(padded, 64 * (n - 1))).Chained()
  }

  /** `setUint32` with the most significant byte first. */
  function WordBytes(w: Word): (bytes: seq<Byte>)
    ensures |bytes| == 4
  {
    [(w >> 24) as Byte, ((w >> 16) & 0xff) as Byte, ((w >> 8) & 0xff) as Byte, (w & 0xff) as Byte]
  }

  function DigestBytes(h: seq<Word>): (bytes: seq<Byte>)
    ensures |bytes| == 4 * |h|
  {
    if h == [] then [] else WordBytes(h[0]) + DigestBytes(h[1..])
  }

  /** Section 6.2: the digest of the padded message's last chaining value. */
  function Hash(msg: seq<Byte>): (digest: seq<Byte>)
    ensures |digest| == 32
  {
    PaddedLengthIsLeast(|msg|);
    DigestBytes(Chain(Pad(msg), |Pad(msg)| / 64))
  }

  method Digest(msg: seq<Byte>) returns (digest: seq<Byte>)
    ensures digest == Hash(msg)
  {
    hide Pad, WordAt, DigestBytes, Round.Chained;
    var h := H0;
    var padded := PadInto(msg);
    PaddedLengthIsLeast(|msg|);
    var w := new Word[64];
    var off := 0;
    while off < padded.Length
      invariant 0 <= off <= padded.Length && off % 64 == 0
      invariant padded[..] == Pad(msg)
      invariant h == Chain(Pad(msg), off / 64)
    {
      var block := BlockAt(padded[..], off);
      ExpandSchedule(block, w);
      h := Rounds(h, block, w[..]);
      off := off + 64;
    }
    digest := DigestBytes(h);
  }
}
