/** Published strings of Bech32 (BIP 173) and Bech32m (BIP 350). Either holds every symbol, so they fix the character
    set, the generator and the two constants. */
module Bech32Vectors {
  import opened Options
  import opened PolyMods
  import opened Bech32

  /** The residues that the checksum passes through. */
  lemma {:induction false} Trace(vs: seq<bv8>, residues: seq<bv32>)
    requires |residues| == |vs| + 1 && forall i :: 0 <= i < |vs| ==> Step(residues[i], vs[i]) == residues[i + 1]
    ensures Run(residues[0], vs) == residues[|vs|]
  {
    hide Step;
    if vs != [] {
      Trace(vs[..|vs| - 1], residues[..|vs|]);
    }
  }

  /** The residue after four parts of a polynomial. */
  lemma {:induction false} FourParts(p: seq<bv8>, a: seq<bv8>, b: seq<bv8>, ck: seq<bv8>)
    ensures Run(1, p + (a + b + ck)) == Run(Run(Run(Run(1, p), a), b), ck)
  {
    hide Run;
    assert p + (a + b + ck) == p + a + b + ck;
    RunConcat(1, p + a + b, ck);
    RunConcat(1, p + a, b);
    RunConcat(1, p, a);
  }

  /** What the HRP "abcdef" contributes to the polynomial. */
  ghost function Prefix(): seq<bv8> { [3, 3, 3, 3, 3, 3, 0, 1, 2, 3, 4, 5, 6] }

  lemma PrefixSteps()
    ensures Step(0x1, 3) == 0x23 && Step(0x23, 3) == 0x463 && Step(0x463, 3) == 0x8c63
    ensures Step(0x8c63, 3) == 0x118c63 && Step(0x118c63, 3) == 0x2318c63 && Step(0x2318c63, 3) == 0x3d5bdbd1
    ensures Step(0x3d5bdbd1, 0) == 0x4dcbcd9 && Step(0x4dcbcd9, 1) == 0x3dc7154c && Step(0x3dc7154c, 2) == 0x17456f7b
    ensures Step(0x17456f7b, 3) == 0x8d50561 && Step(0x8d50561, 4) == 0x401b5de && Step(0x401b5de, 5) == 0x266635a8
    ensures Step(0x266635a8, 6) == 0x3be80e6a
  {
  }

  lemma {:induction false} PrefixRun()
    ensures Run(0x1, Prefix()) == 0x3be80e6a
  {
    hide Step, Run;
    PrefixSteps();
    Trace(Prefix(), [0x1, 0x23, 0x463, 0x8c63, 0x118c63, 0x2318c63, 0x3d5bdbd1, 0x4dcbcd9, 0x3dc7154c, 0x17456f7b,
          0x8d50561, 0x401b5de, 0x266635a8, 0x3be80e6a]);
  }

  lemma ByteOf(c: char, n: nat)
    requires c as int == n < 128
    ensures Byte(c) == n as bv8
  {
  }

  lemma LetterBits()
    ensures High('a') == 3 && High('b') == 3 && High('c') == 3 && High('d') == 3 && High('e') == 3 && High('f') == 3
    ensures Low('a') == 1 && Low('b') == 2 && Low('c') == 3 && Low('d') == 4 && Low('e') == 5 && Low('f') == 6
  {
    hide Byte;
    ByteOf('a', 0x61);
    ByteOf('b', 0x62);
    ByteOf('c', 0x63);
    ByteOf('d', 0x64);
    ByteOf('e', 0x65);
    ByteOf('f', 0x66);
  }

  lemma {:induction false} PrefixLetters()
    ensures Highs("abcdef") == [3, 3, 3, 3, 3, 3] && Lows("abcdef") == [1, 2, 3, 4, 5, 6]
  {
    hide High, Low;
    LetterBits();
  }

  lemma {:induction false} PrefixIs(values: seq<bv8>)
    ensures Coefficients("abcdef", values) == Prefix() + values
  {
    hide Highs, Lows;
    PrefixLetters();
  }

  lemma ConstantIs()
    ensures EncodingConstant(BECH32) == 1 && EncodingConstant(BECH32M) == 0x2bc830a3
  {
  }

  /** The symbols from 0 to 15. */
  ghost function RisingFirst(): seq<bv8> { [0, 1, 2, 3, 4, 5, 6, 7, 8, 9, 10, 11, 12, 13, 14, 15] }

  lemma RisingFirstSteps()
    ensures Step(0x3be80e6a, 0) == 0xf9cd266 && Step(0xf9cd266, 1) == 0x30018ce4 && Step(0x30018ce4, 2) == 0x1767cdec
    ensures Step(0x1767cdec, 3) == 0xc815781 && Step(0xc815781, 4) == 0x28db67b3 && Step(0x28db67b3, 5) == 0x2fd98d2c
    ensures Step(0x2fd98d2c, 6) == 0x12be0710 && Step(0x12be0710, 7) == 0x11e88668 && Step(0x11e88668, 8) == 0x52fed5
    ensures Step(0x52fed5, 9) == 0xa5fdaa9 && Step(0xa5fdaa9, 10) == 0x2e301b62 && Step(0x2e301b62, 11) == 0x2f8ccedd
    ensures Step(0x2f8ccedd, 12) == 0x1816793a && Step(0x1816793a, 13) == 0x212c0d6a
    ensures Step(0x212c0d6a, 14) == 0xf95cffd && Step(0xf95cffd, 15) == 0x31223f8a
  {
  }

  lemma {:induction false} RisingFirstRun()
    ensures Run(0x3be80e6a, RisingFirst()) == 0x31223f8a
  {
    hide Step, Run;
    RisingFirstSteps();
    Trace(RisingFirst(), [0x3be80e6a, 0xf9cd266, 0x30018ce4, 0x1767cdec, 0xc815781, 0x28db67b3, 0x2fd98d2c,
          0x12be0710, 0x11e88668, 0x52fed5, 0xa5fdaa9, 0x2e301b62, 0x2f8ccedd, 0x1816793a, 0x212c0d6a, 0xf95cffd,
          0x31223f8a]);
  }

  /** The symbols from 16 to 31. */
  ghost function RisingSecond(): seq<bv8> { [16, 17, 18, 19, 20, 21, 22, 23, 24, 25, 26, 27, 28, 29, 30, 31] }

  lemma RisingSecondSteps()
    ensures Step(0x31223f8a, 16) == 0x3311a03e && Step(0x3311a03e, 17) == 0xe08010d
    ensures Step(0xe08010d, 18) == 0x29be197 && Step(0x29be197, 19) == 0x28166541
    ensures Step(0x28166541, 20) == 0x3679d37d && Step(0x3679d37d, 21) == 0x556e704
    ensures Step(0x556e704, 22) == 0xc8c6efb && Step(0xc8c6efb, 23) == 0x297c48e0
    ensures Step(0x297c48e0, 24) == 0x1b3c6751 && Step(0x1b3c6751, 25) == 0x3f0597ac
    ensures Step(0x3f0597ac, 26) == 0x347f64d1 && Step(0x347f64d1, 27) == 0x3eea4538
    ensures Step(0x3eea4538, 28) == 0x9853657 && Step(0x9853657, 29) == 0x2e07d307
    ensures Step(0x2e07d307, 30) == 0x2975c268 && Step(0x2975c268, 31) == 0x1a0d3656
  {
  }

  lemma {:induction false} RisingSecondRun()
    ensures Run(0x31223f8a, RisingSecond()) == 0x1a0d3656
  {
    hide Step, Run;
    RisingSecondSteps();
    Trace(RisingSecond(), [0x31223f8a, 0x3311a03e, 0xe08010d, 0x29be197, 0x28166541, 0x3679d37d, 0x556e704,
          0xc8c6efb, 0x297c48e0, 0x1b3c6751, 0x3f0597ac, 0x347f64d1, 0x3eea4538, 0x9853657, 0x2e07d307, 0x2975c268,
          0x1a0d3656]);
  }

  /** The checksum. */
  ghost function RisingChecksum(): seq<bv8> { [27, 0, 0, 0, 6, 14] }

  lemma RisingChecksumSteps()
    ensures Step(0x1a0d3656, 27) == 0x192fb74e && Step(0x192fb74e, 0) == 0x615c3e7 && Step(0x615c3e7, 0) == 0x1f82a53f
    ensures Step(0x1f82a53f, 0) == 0xe8d5418 && Step(0xe8d5418, 6) == 0x12314323 && Step(0x12314323, 14) == 0x1
  {
  }

  lemma {:induction false} RisingChecksumRun()
    ensures Run(0x1a0d3656, RisingChecksum()) == 0x1
  {
    hide Step, Run;
    RisingChecksumSteps();
    Trace(RisingChecksum(), [0x1a0d3656, 0x192fb74e, 0x615c3e7, 0x1f82a53f, 0xe8d5418, 0x12314323, 0x1]);
  }

  lemma {:induction false} RisingFirstChars()
    ensures AreSymbols(RisingFirst()) && Chars(RisingFirst()) == "qpzry9x8gf2tvdw0"
  {
  }

  lemma {:induction false} RisingSecondChars()
    ensures AreSymbols(RisingSecond()) && Chars(RisingSecond()) == "s3jn54khce6mua7l"
  {
  }

  lemma {:induction false} RisingChecksumChars()
    ensures AreSymbols(RisingChecksum()) && Chars(RisingChecksum()) == "mqqqxw"
  {
  }

  lemma {:induction false} RisingText()
    ensures "abcdef" + [SEPARATOR] + ("qpzry9x8gf2tvdw0" + "s3jn54khce6mua7l") + "mqqqxw" ==
            "abcdef1qpzry9x8gf2tvdw0s3jn54khce6mua7lmqqqxw"
  {
  }

  lemma {:induction false} RisingVerified()
    ensures Verified("abcdef", RisingFirst() + RisingSecond() + RisingChecksum()) == Some(BECH32)
  {
    hide Run, Coefficients, Verified, EncodingConstant, Prefix, RisingFirst, RisingSecond, RisingChecksum;
    ConstantIs();
    PrefixIs(RisingFirst() + RisingSecond() + RisingChecksum());
    FourParts(Prefix(), RisingFirst(), RisingSecond(), RisingChecksum());
    PrefixRun();
    RisingFirstRun();
    RisingSecondRun();
    RisingChecksumRun();
    VerifiedIff("abcdef", RisingFirst() + RisingSecond() + RisingChecksum(), BECH32);
  }

  /** The string of BIP 173 that holds the symbols from 0 to 31. */
  lemma {:induction false} RisingPublished()
    ensures var symbols := RisingFirst() + RisingSecond();
            AreSymbols(symbols) &&
            Encoded(BECH32, "abcdef", symbols) == "abcdef1qpzry9x8gf2tvdw0s3jn54khce6mua7lmqqqxw"
  {
    assert |RisingChecksum()| == 6;
    hide Verified, Coefficients, Chars, AreSymbols, Correction, Checksum, RisingFirst, RisingSecond, RisingChecksum;
    RisingFirstChars();
    RisingSecondChars();
    RisingChecksumChars();
    SymbolsConcat(RisingFirst(), RisingSecond());
    CharsConcat(RisingFirst(), RisingSecond());
    RisingVerified();
    ChecksumUnique(BECH32, "abcdef", RisingFirst() + RisingSecond(), RisingChecksum());
    RisingText();
  }

  /** The symbols from 31 to 16. */
  ghost function FallingFirst(): seq<bv8> { [31, 30, 29, 28, 27, 26, 25, 24, 23, 22, 21, 20, 19, 18, 17, 16] }

  lemma FallingFirstSteps()
    ensures Step(0x3be80e6a, 31) == 0xf9cd279 && Step(0xf9cd279, 30) == 0x30018f1b
    ensures Step(0x30018f1b, 29) == 0x1767b213 && Step(0x1767b213, 28) == 0xc8ea87e
    ensures Step(0xc8ea87e, 27) == 0x2924984c && Step(0x2924984c, 26) == 0x102672d3
    ensures Step(0x102672d3, 25) == 0x398c69a4 && Step(0x398c69a4, 24) == 0x387a7c0c
    ensures Step(0x387a7c0c, 23) == 0x6b8c903 && Step(0x6b8c903, 22) == 0xa23f9a9 && Step(0xa23f9a9, 21) == 0x21b47b7d
    ensures Step(0x21b47b7d, 20) == 0x1c9b0d07 && Step(0x1c9b0d07, 19) == 0x16d204b9
    ensures Step(0x16d204b9, 18) == 0x3a387d30 && Step(0x3a387d30, 17) == 0x3592b937
    ensures Step(0x3592b937, 16) == 0x351f9f3
  {
  }

  lemma {:induction false} FallingFirstRun()
    ensures Run(0x3be80e6a, FallingFirst()) == 0x351f9f3
  {
    hide Step, Run;
    FallingFirstSteps();
    Trace(FallingFirst(), [0x3be80e6a, 0xf9cd279, 0x30018f1b, 0x1767b213, 0xc8ea87e, 0x2924984c, 0x102672d3,
          0x398c69a4, 0x387a7c0c, 0x6b8c903, 0xa23f9a9, 0x21b47b7d, 0x1c9b0d07, 0x16d204b9, 0x3a387d30, 0x3592b937,
          0x351f9f3]);
  }

  /** The symbols from 15 to 0. */
  ghost function FallingSecond(): seq<bv8> { [15, 14, 13, 12, 11, 10, 9, 8, 7, 6, 5, 4, 3, 2, 1, 0] }

  lemma FallingSecondSteps()
    ensures Step(0x351f9f3, 15) == 0x115569dd && Step(0x115569dd, 14) == 0x17ef0873
    ensures Step(0x17ef0873, 13) == 0x1d99e46f && Step(0x1d99e46f, 12) == 0x368f29a6
    ensures Step(0x368f29a6, 11) == 0x1b89bc7a && Step(0x1b89bc7a, 10) == 0x29bef2df
    ensures Step(0x29bef2df, 9) == 0x36b20a0 && Step(0x36b20a0, 8) == 0x160e43ba && Step(0x160e43ba, 7) == 0x21b09d45
    ensures Step(0x21b09d45, 6) == 0x1c07ca15 && Step(0x1c07ca15, 5) == 0x54ae6ef && Step(0x54ae6ef, 4) == 0xf0c5389
    ensures Step(0xf0c5389, 3) == 0x2211b106 && Step(0x2211b106, 2) == 0x134815c3 && Step(0x134815c3, 1) == 0x2f2adc0e
    ensures Step(0x2f2adc0e, 0) == 0xcd42356
  {
  }

  lemma {:induction false} FallingSecondRun()
    ensures Run(0x351f9f3, FallingSecond()) == 0xcd42356
  {
    hide Step, Run;
    FallingSecondSteps();
    Trace(FallingSecond(), [0x351f9f3, 0x115569dd, 0x17ef0873, 0x1d99e46f, 0x368f29a6, 0x1b89bc7a, 0x29bef2df,
          0x36b20a0, 0x160e43ba, 0x21b09d45, 0x1c07ca15, 0x54ae6ef, 0xf0c5389, 0x2211b106, 0x134815c3, 0x2f2adc0e,
          0xcd42356]);
  }

  /** The checksum. */
  ghost function FallingChecksum(): seq<bv8> { [2, 13, 17, 3, 4, 6] }

  lemma FallingChecksumSteps()
    ensures Step(0xcd42356, 2) == 0x2275fd55 && Step(0x2275fd55, 13) == 0x1fc19fac
    ensures Step(0x1fc19fac, 17) == 0x6ea0669 && Step(0x6ea0669, 3) == 0x7a14fc && Step(0x7a14fc, 4) == 0xf429f84
    ensures Step(0xf429f84, 6) == 0x2bc830a3
  {
  }

  lemma {:induction false} FallingChecksumRun()
    ensures Run(0xcd42356, FallingChecksum()) == 0x2bc830a3
  {
    hide Step, Run;
    FallingChecksumSteps();
    Trace(FallingChecksum(), [0xcd42356, 0x2275fd55, 0x1fc19fac, 0x6ea0669, 0x7a14fc, 0xf429f84, 0x2bc830a3]);
  }

  lemma {:induction false} FallingFirstChars()
    ensures AreSymbols(FallingFirst()) && Chars(FallingFirst()) == "l7aum6echk45nj3s"
  {
  }

  lemma {:induction false} FallingSecondChars()
    ensures AreSymbols(FallingSecond()) && Chars(FallingSecond()) == "0wdvt2fg8x9yrzpq"
  {
  }

  lemma {:induction false} FallingChecksumChars()
    ensures AreSymbols(FallingChecksum()) && Chars(FallingChecksum()) == "zd3ryx"
  {
  }

  lemma {:induction false} FallingText()
    ensures "abcdef" + [SEPARATOR] + ("l7aum6echk45nj3s" + "0wdvt2fg8x9yrzpq") + "zd3ryx" ==
            "abcdef1l7aum6echk45nj3s0wdvt2fg8x9yrzpqzd3ryx"
  {
  }

  lemma {:induction false} FallingVerified()
    ensures Verified("abcdef", FallingFirst() + FallingSecond() + FallingChecksum()) == Some(BECH32M)
  {
    hide Run, Coefficients, Verified, EncodingConstant, Prefix, FallingFirst, FallingSecond, FallingChecksum;
    ConstantIs();
    PrefixIs(FallingFirst() + FallingSecond() + FallingChecksum());
    FourParts(Prefix(), FallingFirst(), FallingSecond(), FallingChecksum());
    PrefixRun();
    FallingFirstRun();
    FallingSecondRun();
    FallingChecksumRun();
    VerifiedIff("abcdef", FallingFirst() + FallingSecond() + FallingChecksum(), BECH32M);
  }

  /** The string of BIP 350 that holds the symbols from 31 to 0. */
  lemma {:induction false} FallingPublished()
    ensures var symbols := FallingFirst() + FallingSecond();
            AreSymbols(symbols) &&
            Encoded(BECH32M, "abcdef", symbols) == "abcdef1l7aum6echk45nj3s0wdvt2fg8x9yrzpqzd3ryx"
  {
    assert |FallingChecksum()| == 6;
    hide Verified, Coefficients, Chars, AreSymbols, Correction, Checksum, FallingFirst, FallingSecond, FallingChecksum;
    FallingFirstChars();
    FallingSecondChars();
    FallingChecksumChars();
    SymbolsConcat(FallingFirst(), FallingSecond());
    CharsConcat(FallingFirst(), FallingSecond());
    FallingVerified();
    ChecksumUnique(BECH32M, "abcdef", FallingFirst() + FallingSecond(), FallingChecksum());
    FallingText();
  }
}
