/** The 32-bit string hash that backups and atomic batches share. */
module Djb2 {
  import opened Words

  /** A UTF-16 code unit. */
  type Unit = bv16

  function Times33(h: bv32): bv32 {
    (h << 5) + h
  }

  function Xor(h: bv32, c: Unit): bv32 {
    h ^ (c as bv32)
  }

  function Mix(hash: bv32, c: Unit): bv32 {
    Xor(Times33(hash), c)
  }

  function Checksum(text: seq<Unit>): bv32 {
    if text == [] then 5381 else Mix(Checksum(text[..|text| - 1]), text[|text| - 1])
  }

  method ComputeChecksum(text: seq<Unit>) returns (hash: bv32)
    ensures hash == Checksum(text)
  {
    hide Mix;
    hash := 5381;
    for i := 0 to |text|
      invariant hash == Checksum(text[..i])
    {
      assert text[..i + 1][..i] == text[..i];
      hash := Mix(hash, text[i]);
    }
    assert text[..|text|] == text;
  }

  /** The mixing step can be undone: 33 has an inverse modulo 2^32. */
  lemma TimesUndone(h: bv32)
    ensures (h * 33) * 0x3E0F83E1 == h
  {
  }

  lemma ShiftAndAdd(h: bv32)
    ensures Times33(h) == h * 33
  {
  }

  lemma XorCancels(g: bv32, h: bv32, c: Unit)
    ensures Xor(g, c) == Xor(h, c) ==> g == h
  {
  }

  lemma XorTellsApart(h: bv32, c: Unit, d: Unit)
    ensures Xor(h, c) == Xor(h, d) ==> c == d
  {
  }

  lemma MixInjective(g: bv32, h: bv32, c: Unit, d: Unit)
    ensures Mix(g, c) == Mix(h, c) ==> g == h
    ensures Mix(g, c) == Mix(g, d) ==> c == d
  {
    hide Times33, Xor;
    TimesUndone(g);
    TimesUndone(h);
    ShiftAndAdd(g);
    ShiftAndAdd(h);
    XorCancels(Times33(g), Times33(h), c);
    XorTellsApart(Times33(g), c, d);
  }

  /** Changing a single character always changes the checksum. */
  lemma {:induction false} OneChangeIsCaught(text: seq<Unit>, at: nat, c: Unit)
    requires at < |text| && text[at] != c
    ensures Checksum(text[at := c]) != Checksum(text)
  {
    hide Mix;
    var last := |text| - 1;
    var changed := text[at := c];
    if at == last {
      assert changed[..last] == text[..last];
      MixInjective(Checksum(text[..last]), Checksum(text[..last]), text[at], c);
    } else {
      OneChangeIsCaught(text[..last], at, c);
      assert changed[..last] == text[..last][at := c];
      MixInjective(Checksum(text[..last]), Checksum(changed[..last]), text[last], c);
    }
  }

  /** The code unit of a number, from its two bytes. */
  function UnitOf(n: int): Unit {
    ((Digit(n / 0x100) as Unit) << 8) | (Digit(n) as Unit)
  }

  function CodeOf(u: Unit): int {
    Number((u >> 8) as Byte) * 0x100 + Number((u & 0xff) as Byte)
  }

  lemma HalvesOfUnit(high: Byte, low: Byte)
    ensures var u := ((high as Unit) << 8) | (low as Unit); (u >> 8) as Byte == high && (u & 0xff) as Byte == low
  {
  }

  lemma CodeOfUnit(n: int)
    ensures CodeOf(UnitOf(n)) == n % 0x1_0000
  {
    hide Digit, Number;
    HalvesOfUnit(Digit(n / 0x100), Digit(n));
    NumberOfDigit(n / 0x100);
    NumberOfDigit(n);
    assert n == n / 0x100 / 0x100 * 0x1_0000 + n / 0x100 % 0x100 * 0x100 + n % 0x100;
  }

  /** The code units of a character: itself, or a surrogate pair. */
  function UnitsOf(c: char): seq<Unit> {
    var v := c as int;
    if v < 0x1_0000 then [UnitOf(v)]
    else [UnitOf(0xD800 + (v - 0x1_0000) / 0x400), UnitOf(0xDC00 + (v - 0x1_0000) % 0x400)]
  }

  /** The units tell the character: one below 0x10000, or a high and a low surrogate that
      hold ten bits each of what is above. */
  lemma UnitsTell(c: char)
    ensures if c as int < 0x1_0000 then |UnitsOf(c)| == 1 && CodeOf(UnitsOf(c)[0]) == c as int
            else && |UnitsOf(c)| == 2 && 0xD800 <= CodeOf(UnitsOf(c)[0]) < 0xDC00 <= CodeOf(UnitsOf(c)[1]) < 0xE000
                 && c as int == 0x1_0000 + (CodeOf(UnitsOf(c)[0]) - 0xD800) * 0x400 + CodeOf(UnitsOf(c)[1]) - 0xDC00
  {
    hide UnitOf, CodeOf;
    var v := c as int;
    if v < 0x1_0000 {
      CodeOfUnit(v);
    } else {
      CodeOfUnit(0xD800 + (v - 0x1_0000) / 0x400);
      CodeOfUnit(0xDC00 + (v - 0x1_0000) % 0x400);
    }
  }

  function Units(text: string): seq<Unit> {
    if text == "" then [] else Units(text[..|text| - 1]) + UnitsOf(text[|text| - 1])
  }

  lemma {:induction false} UnitsAppend(a: string, b: string)
    ensures Units(a + b) == Units(a) + Units(b)
  {
    hide UnitsOf;
    if b == "" {
      assert a + b == a;
    } else {
      var init := b[..|b| - 1];
      UnitsAppend(a, init);
      assert (a + b)[..|a + b| - 1] == a + init;
    }
  }

  /** Texts with the same checksum keep having the same, whatever follows. */
  lemma {:induction false} CollisionExtends(a: seq<Unit>, b: seq<Unit>, rest: seq<Unit>)
    requires Checksum(a) == Checksum(b)
    ensures Checksum(a + rest) == Checksum(b + rest)
  {
    hide Mix;
    if rest == [] {
      assert a + rest == a && b + rest == b;
    } else {
      var init := rest[..|rest| - 1];
      CollisionExtends(a, b, init);
      assert (a + rest)[..|a + rest| - 1] == a + init && (b + rest)[..|b + rest| - 1] == b + init;
    }
  }

  lemma TwoUnits(u: Unit, v: Unit)
    ensures Checksum([u, v]) == Mix(Mix(5381, u), v)
  {
    hide Mix;
    assert [u, v][..1] == [u] && [u][..0] == [];
    assert Checksum([u]) == Mix(Checksum([]), u);
  }

  lemma TwoChars(x: char, y: char)
    ensures Units([x, y]) == UnitsOf(x) + UnitsOf(y)
  {
    hide UnitsOf;
    assert [x, y][..1] == [x] && [x][..0] == [];
    assert Units([x]) == [] + UnitsOf(x);
  }

  lemma FourUnits()
    ensures UnitsOf('a') == [97] && UnitsOf('6') == [54] && UnitsOf('g') == [103] && UnitsOf('p') == [112]
  {
  }

  lemma MixCollides()
    ensures Mix(Mix(5381, 97), 54) == Mix(Mix(5381, 103), 112)
  {
  }

  /** Two short texts that the hash does not tell apart. */
  lemma ShortCollision()
    ensures Checksum(Units("a6")) == Checksum(Units("gp"))
  {
    hide Mix, UnitsOf, Units, Checksum;
    FourUnits();
    TwoChars('a', '6');
    TwoChars('g', 'p');
    assert [97 as Unit] + [54] == [97, 54] && [103 as Unit] + [112] == [103, 112];
    TwoUnits(97, 54);
    TwoUnits(103, 112);
    MixCollides();
  }
}
