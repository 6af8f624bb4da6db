/** The constants of SHA-256 (FIPS 180-4, sections 4.2.2 and 5.3.3): what fractions they
    are of. */
module Sha256Constants {
  import opened Words

  /** The round constants of section 4.2.2, eight at a time. */
  const K0: seq<Word> := [
    0x428a2f98, 0x71374491, 0xb5c0fbcf, 0xe9b5dba5, 0x3956c25b, 0x59f111f1, 0x923f82a4, 0xab1c5ed5]
  const K1: seq<Word> := [
    0xd807aa98, 0x12835b01, 0x243185be, 0x550c7dc3, 0x72be5d74, 0x80deb1fe, 0x9bdc06a7, 0xc19bf174]
  const K2: seq<Word> := [
    0xe49b69c1, 0xefbe4786, 0x0fc19dc6, 0x240ca1cc, 0x2de92c6f, 0x4a7484aa, 0x5cb0a9dc, 0x76f988da]
  const K3: seq<Word> := [
    0x983e5152, 0xa831c66d, 0xb00327c8, 0xbf597fc7, 0xc6e00bf3, 0xd5a79147, 0x06ca6351, 0x14292967]
  const K4: seq<Word> := [
    0x27b70a85, 0x2e1b2138, 0x4d2c6dfc, 0x53380d13, 0x650a7354, 0x766a0abb, 0x81c2c92e, 0x92722c85]
  const K5: seq<Word> := [
    0xa2bfe8a1, 0xa81a664b, 0xc24b8b70, 0xc76c51a3, 0xd192e819, 0xd6990624, 0xf40e3585, 0x106aa070]
  const K6: seq<Word> := [
    0x19a4c116, 0x1e376c08, 0x2748774c, 0x34b0bcb5, 0x391c0cb3, 0x4ed8aa4a, 0x5b9cca4f, 0x682e6ff3]
  const K7: seq<Word> := [
    0x748f82ee, 0x78a5636f, 0x84c87814, 0x8cc70208, 0x90befffa, 0xa4506ceb, 0xbef9a3f7, 0xc67178f2]

  function Row(r: nat): (row: seq<Word>)
    requires r < 8
    ensures |row| == 8
  {
    if r == 0 then K0 else if r == 1 then K1 else if r == 2 then K2 else if r == 3 then K3
    else if r == 4 then K4 else if r == 5 then K5 else if r == 6 then K6 else K7
  }

  function RoundConstant(t: nat): Word
    requires t < 64
  {
    Row(t / 8)[t % 8]
  }

  lemma ConstantsInRows(r: nat, c: nat)
    requires r < 8 && c < 8
    ensures RoundConstant(8 * r + c) == Row(r)[c]
  {
    hide Row;
  }

  const H0: seq<Word> := [
    0x6a09e667, 0xbb67ae85, 0x3c6ef372, 0xa54ff53a, 0x510e527f, 0x9b05688c, 0x1f83d9ab, 0x5be0cd19]

  predicate CubeBetween(n: int, p: int) {
    n * n * n <= p * 0x1_0000_0000_0000_0000_0000_0000 < (n + 1) * (n + 1) * (n + 1)
  }

  predicate SquareBetween(n: int, p: int) {
    n * n <= p * 0x1_0000_0000_0000_0000 < (n + 1) * (n + 1)
  }

  /** A word is the first 32 bits behind the point of a cube root, or of a square root, whose
      whole part is given. */
  predicate CubeRootOf(w: Word, whole: int, p: int) {
    CubeBetween(whole * 0x1_0000_0000 + Unsigned(w), p)
  }

  predicate SquareRootOf(w: Word, whole: int, p: int) {
    SquareBetween(whole * 0x1_0000_0000 + Unsigned(w), p)
  }

  lemma IsCubeRoot(w: Word, number: int, whole: int, p: int)
    requires Unsigned(w) == number && CubeBetween(whole * 0x1_0000_0000 + number, p)
    ensures CubeRootOf(w, whole, p)
  {
    hide CubeBetween, Unsigned;
  }

  lemma IsSquareRoot(w: Word, number: int, whole: int, p: int)
    requires Unsigned(w) == number && SquareBetween(whole * 0x1_0000_0000 + number, p)
    ensures SquareRootOf(w, whole, p)
  {
    hide SquareBetween, Unsigned;
  }

  lemma NumbersOfK0a()
    ensures Unsigned(0x428a2f98) == 0x428a2f98
    ensures Unsigned(0x71374491) == 0x71374491
    ensures Unsigned(0xb5c0fbcf) == 0xb5c0fbcf
    ensures Unsigned(0xe9b5dba5) == 0xe9b5dba5
  {
  }

  lemma NumbersOfK0b()
    ensures Unsigned(0x3956c25b) == 0x3956c25b
    ensures Unsigned(0x59f111f1) == 0x59f111f1
    ensures Unsigned(0x923f82a4) == 0x923f82a4
    ensures Unsigned(0xab1c5ed5) == 0xab1c5ed5
  {
  }

  lemma RootsOfK0()
    ensures CubeRootOf(K0[0], 1, 2)
    ensures CubeRootOf(K0[1], 1, 3)
    ensures CubeRootOf(K0[2], 1, 5)
    ensures CubeRootOf(K0[3], 1, 7)
    ensures CubeRootOf(K0[4], 2, 11)
    ensures CubeRootOf(K0[5], 2, 13)
    ensures CubeRootOf(K0[6], 2, 17)
    ensures CubeRootOf(K0[7], 2, 19)
  {
    hide CubeRootOf, Unsigned;
    NumbersOfK0a();
    NumbersOfK0b();
    IsCubeRoot(0x428a2f98, 0x428a2f98, 1, 2);
    IsCubeRoot(0x71374491, 0x71374491, 1, 3);
    IsCubeRoot(0xb5c0fbcf, 0xb5c0fbcf, 1, 5);
    IsCubeRoot(0xe9b5dba5, 0xe9b5dba5, 1, 7);
    IsCubeRoot(0x3956c25b, 0x3956c25b, 2, 11);
    IsCubeRoot(0x59f111f1, 0x59f111f1, 2, 13);
    IsCubeRoot(0x923f82a4, 0x923f82a4, 2, 17);
    IsCubeRoot(0xab1c5ed5, 0xab1c5ed5, 2, 19);
  }

  lemma NumbersOfK1a()
    ensures Unsigned(0xd807aa98) == 0xd807aa98
    ensures Unsigned(0x12835b01) == 0x12835b01
    ensures Unsigned(0x243185be) == 0x243185be
    ensures Unsigned(0x550c7dc3) == 0x550c7dc3
  {
  }

  lemma NumbersOfK1b()
    ensures Unsigned(0x72be5d74) == 0x72be5d74
    ensures Unsigned(0x80deb1fe) == 0x80deb1fe
    ensures Unsigned(0x9bdc06a7) == 0x9bdc06a7
    ensures Unsigned(0xc19bf174) == 0xc19bf174
  {
  }

  lemma RootsOfK1()
    ensures CubeRootOf(K1[0], 2, 23)
    ensures CubeRootOf(K1[1], 3, 29)
    ensures CubeRootOf(K1[2], 3, 31)
    ensures CubeRootOf(K1[3], 3, 37)
    ensures CubeRootOf(K1[4], 3, 41)
    ensures CubeRootOf(K1[5], 3, 43)
    ensures CubeRootOf(K1[6], 3, 47)
    ensures CubeRootOf(K1[7], 3, 53)
  {
    hide CubeRootOf, Unsigned;
    NumbersOfK1a();
    NumbersOfK1b();
    IsCubeRoot(0xd807aa98, 0xd807aa98, 2, 23);
    IsCubeRoot(0x12835b01, 0x12835b01, 3, 29);
    IsCubeRoot(0x243185be, 0x243185be, 3, 31);
    IsCubeRoot(0x550c7dc3, 0x550c7dc3, 3, 37);
    IsCubeRoot(0x72be5d74, 0x72be5d74, 3, 41);
    IsCubeRoot(0x80deb1fe, 0x80deb1fe, 3, 43);
    IsCubeRoot(0x9bdc06a7, 0x9bdc06a7, 3, 47);
    IsCubeRoot(0xc19bf174, 0xc19bf174, 3, 53);
  }

  lemma NumbersOfK2a()
    ensures Unsigned(0xe49b69c1) == 0xe49b69c1
    ensures Unsigned(0xefbe4786) == 0xefbe4786
    ensures Unsigned(0x0fc19dc6) == 0x0fc19dc6
    ensures Unsigned(0x240ca1cc) == 0x240ca1cc
  {
  }

  lemma NumbersOfK2b()
    ensures Unsigned(0x2de92c6f) == 0x2de92c6f
    ensures Unsigned(0x4a7484aa) == 0x4a7484aa
    ensures Unsigned(0x5cb0a9dc) == 0x5cb0a9dc
    ensures Unsigned(0x76f988da) == 0x76f988da
  {
  }

  lemma RootsOfK2()
    ensures CubeRootOf(K2[0], 3, 59)
    ensures CubeRootOf(K2[1], 3, 61)
    ensures CubeRootOf(K2[2], 4, 67)
    ensures CubeRootOf(K2[3], 4, 71)
    ensures CubeRootOf(K2[4], 4, 73)
    ensures CubeRootOf(K2[5], 4, 79)
    ensures CubeRootOf(K2[6], 4, 83)
    ensures CubeRootOf(K2[7], 4, 89)
  {
    hide CubeRootOf, Unsigned;
    NumbersOfK2a();
    NumbersOfK2b();
    IsCubeRoot(0xe49b69c1, 0xe49b69c1, 3, 59);
    IsCubeRoot(0xefbe4786, 0xefbe4786, 3, 61);
    IsCubeRoot(0x0fc19dc6, 0x0fc19dc6, 4, 67);
    IsCubeRoot(0x240ca1cc, 0x240ca1cc, 4, 71);
    IsCubeRoot(0x2de92c6f, 0x2de92c6f, 4, 73);
    IsCubeRoot(0x4a7484aa, 0x4a7484aa, 4, 79);
    IsCubeRoot(0x5cb0a9dc, 0x5cb0a9dc, 4, 83);
    IsCubeRoot(0x76f988da, 0x76f988da, 4, 89);
  }

  lemma NumbersOfK3a()
    ensures Unsigned(0x983e5152) == 0x983e5152
    ensures Unsigned(0xa831c66d) == 0xa831c66d
    ensures Unsigned(0xb00327c8) == 0xb00327c8
    ensures Unsigned(0xbf597fc7) == 0xbf597fc7
  {
  }

  lemma NumbersOfK3b()
    ensures Unsigned(0xc6e00bf3) == 0xc6e00bf3
    ensures Unsigned(0xd5a79147) == 0xd5a79147
    ensures Unsigned(0x06ca6351) == 0x06ca6351
    ensures Unsigned(0x14292967) == 0x14292967
  {
  }

  lemma RootsOfK3()
    ensures CubeRootOf(K3[0], 4, 97)
    ensures CubeRootOf(K3[1], 4, 101)
    ensures CubeRootOf(K3[2], 4, 103)
    ensures CubeRootOf(K3[3], 4, 107)
    ensures CubeRootOf(K3[4], 4, 109)
    ensures CubeRootOf(K3[5], 4, 113)
    ensures CubeRootOf(K3[6], 5, 127)
    ensures CubeRootOf(K3[7], 5, 131)
  {
    hide CubeRootOf, Unsigned;
    NumbersOfK3a();
    NumbersOfK3b();
    IsCubeRoot(0x983e5152, 0x983e5152, 4, 97);
    IsCubeRoot(0xa831c66d, 0xa831c66d, 4, 101);
    IsCubeRoot(0xb00327c8, 0xb00327c8, 4, 103);
    IsCubeRoot(0xbf597fc7, 0xbf597fc7, 4, 107);
    IsCubeRoot(0xc6e00bf3, 0xc6e00bf3, 4, 109);
    IsCubeRoot(0xd5a79147, 0xd5a79147, 4, 113);
    IsCubeRoot(0x06ca6351, 0x06ca6351, 5, 127);
    IsCubeRoot(0x14292967, 0x14292967, 5, 131);
  }

  lemma NumbersOfK4a()
    ensures Unsigned(0x27b70a85) == 0x27b70a85
    ensures Unsigned(0x2e1b2138) == 0x2e1b2138
    ensures Unsigned(0x4d2c6dfc) == 0x4d2c6dfc
    ensures Unsigned(0x53380d13) == 0x53380d13
  {
  }

  lemma NumbersOfK4b()
    ensures Unsigned(0x650a7354) == 0x650a7354
    ensures Unsigned(0x766a0abb) == 0x766a0abb
    ensures Unsigned(0x81c2c92e) == 0x81c2c92e
    ensures Unsigned(0x92722c85) == 0x92722c85
  {
  }

  lemma RootsOfK4()
    ensures CubeRootOf(K4[0], 5, 137)
    ensures CubeRootOf(K4[1], 5, 139)
    ensures CubeRootOf(K4[2], 5, 149)
    ensures CubeRootOf(K4[3], 5, 151)
    ensures CubeRootOf(K4[4], 5, 157)
    ensures CubeRootOf(K4[5], 5, 163)
    ensures CubeRootOf(K4[6], 5, 167)
    ensures CubeRootOf(K4[7], 5, 173)
  {
    hide CubeRootOf, Unsigned;
    NumbersOfK4a();
    NumbersOfK4b();
    IsCubeRoot(0x27b70a85, 0x27b70a85, 5, 137);
    IsCubeRoot(0x2e1b2138, 0x2e1b2138, 5, 139);
    IsCubeRoot(0x4d2c6dfc, 0x4d2c6dfc, 5, 149);
    IsCubeRoot(0x53380d13, 0x53380d13, 5, 151);
    IsCubeRoot(0x650a7354, 0x650a7354, 5, 157);
    IsCubeRoot(0x766a0abb, 0x766a0abb, 5, 163);
    IsCubeRoot(0x81c2c92e, 0x81c2c92e, 5, 167);
    IsCubeRoot(0x92722c85, 0x92722c85, 5, 173);
  }

  lemma NumbersOfK5a()
    ensures Unsigned(0xa2bfe8a1) == 0xa2bfe8a1
    ensures Unsigned(0xa81a664b) == 0xa81a664b
    ensures Unsigned(0xc24b8b70) == 0xc24b8b70
    ensures Unsigned(0xc76c51a3) == 0xc76c51a3
  {
  }

  lemma NumbersOfK5b()
    ensures Unsigned(0xd192e819) == 0xd192e819
    ensures Unsigned(0xd6990624) == 0xd6990624
    ensures Unsigned(0xf40e3585) == 0xf40e3585
    ensures Unsigned(0x106aa070) == 0x106aa070
  {
  }

  lemma RootsOfK5()
    ensures CubeRootOf(K5[0], 5, 179)
    ensures CubeRootOf(K5[1], 5, 181)
    ensures CubeRootOf(K5[2], 5, 191)
    ensures CubeRootOf(K5[3], 5, 193)
    ensures CubeRootOf(K5[4], 5, 197)
    ensures CubeRootOf(K5[5], 5, 199)
    ensures CubeRootOf(K5[6], 5, 211)
    ensures CubeRootOf(K5[7], 6, 223)
  {
    hide CubeRootOf, Unsigned;
    NumbersOfK5a();
    NumbersOfK5b();
    IsCubeRoot(0xa2bfe8a1, 0xa2bfe8a1, 5, 179);
    IsCubeRoot(0xa81a664b, 0xa81a664b, 5, 181);
    IsCubeRoot(0xc24b8b70, 0xc24b8b70, 5, 191);
    IsCubeRoot(0xc76c51a3, 0xc76c51a3, 5, 193);
    IsCubeRoot(0xd192e819, 0xd192e819, 5, 197);
    IsCubeRoot(0xd6990624, 0xd6990624, 5, 199);
    IsCubeRoot(0xf40e3585, 0xf40e3585, 5, 211);
    IsCubeRoot(0x106aa070, 0x106aa070, 6, 223);
  }

  lemma NumbersOfK6a()
    ensures Unsigned(0x19a4c116) == 0x19a4c116
    ensures Unsigned(0x1e376c08) == 0x1e376c08
    ensures Unsigned(0x2748774c) == 0x2748774c
    ensures Unsigned(0x34b0bcb5) == 0x34b0bcb5
  {
  }

  lemma NumbersOfK6b()
    ensures Unsigned(0x391c0cb3) == 0x391c0cb3
    ensures Unsigned(0x4ed8aa4a) == 0x4ed8aa4a
    ensures Unsigned(0x5b9cca4f) == 0x5b9cca4f
    ensures Unsigned(0x682e6ff3) == 0x682e6ff3
  {
  }

  lemma RootsOfK6()
    ensures CubeRootOf(K6[0], 6, 227)
    ensures CubeRootOf(K6[1], 6, 229)
    ensures CubeRootOf(K6[2], 6, 233)
    ensures CubeRootOf(K6[3], 6, 239)
    ensures CubeRootOf(K6[4], 6, 241)
    ensures CubeRootOf(K6[5], 6, 251)
    ensures CubeRootOf(K6[6], 6, 257)
    ensures CubeRootOf(K6[7], 6, 263)
  {
    hide CubeRootOf, Unsigned;
    NumbersOfK6a();
    NumbersOfK6b();
    IsCubeRoot(0x19a4c116, 0x19a4c116, 6, 227);
    IsCubeRoot(0x1e376c08, 0x1e376c08, 6, 229);
    IsCubeRoot(0x2748774c, 0x2748774c, 6, 233);
    IsCubeRoot(0x34b0bcb5, 0x34b0bcb5, 6, 239);
    IsCubeRoot(0x391c0cb3, 0x391c0cb3, 6, 241);
    IsCubeRoot(0x4ed8aa4a, 0x4ed8aa4a, 6, 251);
    IsCubeRoot(0x5b9cca4f, 0x5b9cca4f, 6, 257);
    IsCubeRoot(0x682e6ff3, 0x682e6ff3, 6, 263);
  }

  lemma NumbersOfK7a()
    ensures Unsigned(0x748f82ee) == 0x748f82ee
    ensures Unsigned(0x78a5636f) == 0x78a5636f
    ensures Unsigned(0x84c87814) == 0x84c87814
    ensures Unsigned(0x8cc70208) == 0x8cc70208
  {
  }

  lemma NumbersOfK7b()
    ensures Unsigned(0x90befffa) == 0x90befffa
    ensures Unsigned(0xa4506ceb) == 0xa4506ceb
    ensures Unsigned(0xbef9a3f7) == 0xbef9a3f7
    ensures Unsigned(0xc67178f2) == 0xc67178f2
  {
  }

  lemma RootsOfK7()
    ensures CubeRootOf(K7[0], 6, 269)
    ensures CubeRootOf(K7[1], 6, 271)
    ensures CubeRootOf(K7[2], 6, 277)
    ensures CubeRootOf(K7[3], 6, 281)
    ensures CubeRootOf(K7[4], 6, 283)
    ensures CubeRootOf(K7[5], 6, 293)
    ensures CubeRootOf(K7[6], 6, 307)
    ensures CubeRootOf(K7[7], 6, 311)
  {
    hide CubeRootOf, Unsigned;
    NumbersOfK7a();
    NumbersOfK7b();
    IsCubeRoot(0x748f82ee, 0x748f82ee, 6, 269);
    IsCubeRoot(0x78a5636f, 0x78a5636f, 6, 271);
    IsCubeRoot(0x84c87814, 0x84c87814, 6, 277);
    IsCubeRoot(0x8cc70208, 0x8cc70208, 6, 281);
    IsCubeRoot(0x90befffa, 0x90befffa, 6, 283);
    IsCubeRoot(0xa4506ceb, 0xa4506ceb, 6, 293);
    IsCubeRoot(0xbef9a3f7, 0xbef9a3f7, 6, 307);
    IsCubeRoot(0xc67178f2, 0xc67178f2, 6, 311);
  }

  lemma NumbersOfH0a()
    ensures Unsigned(0x6a09e667) == 0x6a09e667
    ensures Unsigned(0xbb67ae85) == 0xbb67ae85
    ensures Unsigned(0x3c6ef372) == 0x3c6ef372
    ensures Unsigned(0xa54ff53a) == 0xa54ff53a
  {
  }

  lemma NumbersOfH0b()
    ensures Unsigned(0x510e527f) == 0x510e527f
    ensures Unsigned(0x9b05688c) == 0x9b05688c
    ensures Unsigned(0x1f83d9ab) == 0x1f83d9ab
    ensures Unsigned(0x5be0cd19) == 0x5be0cd19
  {
  }

  lemma RootsOfH0()
    ensures SquareRootOf(H0[0], 1, 2)
    ensures SquareRootOf(H0[1], 1, 3)
    ensures SquareRootOf(H0[2], 2, 5)
    ensures SquareRootOf(H0[3], 2, 7)
    ensures SquareRootOf(H0[4], 3, 11)
    ensures SquareRootOf(H0[5], 3, 13)
    ensures SquareRootOf(H0[6], 4, 17)
    ensures SquareRootOf(H0[7], 4, 19)
  {
    hide SquareRootOf, Unsigned;
    NumbersOfH0a();
    NumbersOfH0b();
    IsSquareRoot(0x6a09e667, 0x6a09e667, 1, 2);
    IsSquareRoot(0xbb67ae85, 0xbb67ae85, 1, 3);
    IsSquareRoot(0x3c6ef372, 0x3c6ef372, 2, 5);
    IsSquareRoot(0xa54ff53a, 0xa54ff53a, 2, 7);
    IsSquareRoot(0x510e527f, 0x510e527f, 3, 11);
    IsSquareRoot(0x9b05688c, 0x9b05688c, 3, 13);
    IsSquareRoot(0x1f83d9ab, 0x1f83d9ab, 4, 17);
    IsSquareRoot(0x5be0cd19, 0x5be0cd19, 4, 19);
  }
}
