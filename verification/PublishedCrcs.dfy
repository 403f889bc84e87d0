// Checksums published with the standard: what the program's register gives for them.
module PublishedCrcs {
  import opened Bytes
  import opened Crc32c
  import opened Castagnoli

  // One known byte, in two halves of the step.
  lemma KnownStep(s: bv32, b: byte, v: bv32, half: bv32, t: bv32, rest: bytes)
    requires var w := BitsOf(b); Pack(w[0], w[1], w[2], w[3], w[4], w[5], w[6], w[7]) == v
    requires Shift4(s ^ v) == half && Shift4(half) == t
    ensures Run(s, [b] + rest) == Run(t, rest)
  {
    hide Shift, Widen, Pack, BitsOf;
    WidenPacks(b);
    RunFirst(s, b, rest);
  }

  lemma RunNothing(s: bv32)
    ensures Run(s, []) == s
  {
  }

  // The digits are 0x30 and four bits.

  function Value(bit: bool): nat {
    if bit then 1 else 0
  }

  lemma Three()
    ensures NatBits(3, 4) == [true, true, false, false]
  {
    hide NatBits;
    FirstDigit(3, 3);
    FirstDigit(1, 2);
    FirstDigit(0, 1);
    FirstDigit(0, 0);
    NoDigits(0);
  }

  lemma BitBelow(bit: bool, n: nat, k: nat)
    ensures NatBits(2 * n + Value(bit), 1 + k) == [bit] + NatBits(n, k)
  {
    hide NatBits;
    FirstDigit(2 * n + Value(bit), k);
  }

  lemma DigitBits(b0: bool, b1: bool, b2: bool, b3: bool)
    ensures BitsOf(0x30 + Value(b0) + 2 * Value(b1) + 4 * Value(b2) + 8 * Value(b3))
            == [b0, b1, b2, b3, true, true, false, false]
  {
    hide NatBits, Value;
    Three();
    BitBelow(b3, 3, 4);
    BitBelow(b2, 6 + Value(b3), 5);
    BitBelow(b1, 12 + 2 * Value(b3) + Value(b2), 6);
    BitBelow(b0, 24 + 4 * Value(b3) + 2 * Value(b2) + Value(b1), 7);
  }

  lemma DigitStep(s: bv32, d: byte, b0: bool, b1: bool, b2: bool, b3: bool, v: bv32, half: bv32, t: bv32, rest: bytes)
    requires d == 0x30 + Value(b0) + 2 * Value(b1) + 4 * Value(b2) + 8 * Value(b3)
    requires Pack(b0, b1, b2, b3, true, true, false, false) == v
    requires Shift4(s ^ v) == half && Shift4(half) == t
    ensures Run(s, [d] + rest) == Run(t, rest)
  {
    hide Shift4, Pack, BitsOf, Run, Value;
    DigitBits(b0, b1, b2, b3);
    KnownStep(s, d, v, half, t, rest);
  }

  lemma Digits1()
    ensures Run(0xFFFFFFFF, [0x31, 0x32, 0x33]) == 0xEF84D04D
  {
    hide Run;
    DigitStep(0xFFFFFFFF, 0x31, true, false, false, false, 0x31, 0xECCF57E6, 0x6F0A661C, [0x32, 0x33]);
    DigitStep(0x6F0A661C, 0x32, false, true, false, false, 0x32, 0xE5C00E78, 0x8CAA3B9F, [0x33]);
    DigitStep(0x8CAA3B9F, 0x33, true, true, false, false, 0x33, 0xCB47857E, 0xEF84D04D, []);
    assert [0x31] + [0x32, 0x33] == [0x31, 0x32, 0x33] && [0x32] + [0x33] == [0x32, 0x33] && [0x33] + [] == [0x33];
    RunNothing(0xEF84D04D);
  }

  lemma Digits2()
    ensures Run(0xEF84D04D, [0x34, 0x35, 0x36]) == 0xBECA8E79
  {
    hide Run;
    DigitStep(0xEF84D04D, 0x34, false, false, true, false, 0x34, 0x9C50B110, 0x09C50B11, [0x35, 0x36]);
    DigitStep(0x09C50B11, 0x35, true, false, true, false, 0x35, 0x41E74D0E, 0xE72EDCCA, [0x36]);
    DigitStep(0xE72EDCCA, 0x36, false, true, true, false, 0x36, 0xCDFFCB0B, 0xBECA8E79, []);
    assert [0x34] + [0x35, 0x36] == [0x34, 0x35, 0x36] && [0x35] + [0x36] == [0x35, 0x36] && [0x36] + [] == [0x36];
    RunNothing(0xBECA8E79);
  }

  lemma Digits3()
    ensures Run(0xBECA8E79, [0x37, 0x38, 0x39]) == 0x1CF96D7C
  {
    hide Run;
    DigitStep(0xBECA8E79, 0x37, true, true, true, false, 0x37, 0xE8DC00FE, 0xEDBD6815, [0x38, 0x39]);
    DigitStep(0xEDBD6815, 0x38, false, false, false, true, 0x38, 0xDD083729, 0x9F787F65, [0x39]);
    DigitStep(0x9F787F65, 0x39, true, false, false, true, 0x39, 0xCA7AA131, 0x1CF96D7C, []);
    assert [0x37] + [0x38, 0x39] == [0x37, 0x38, 0x39] && [0x38] + [0x39] == [0x38, 0x39] && [0x39] + [] == [0x39];
    RunNothing(0x1CF96D7C);
  }

  // "123456789"
  lemma DigitsChecksum()
    ensures Checksum([0x31, 0x32, 0x33, 0x34, 0x35, 0x36, 0x37, 0x38, 0x39]) == 0xE3069283
  {
    hide Run;
    var a, b, c := [0x31, 0x32, 0x33], [0x34, 0x35, 0x36], [0x37, 0x38, 0x39];
    Digits1();
    Digits2();
    Digits3();
    RunAppend(0xFFFF_FFFF, a, b + c);
    RunAppend(0xEF84D04D, b, c);
    assert a + (b + c) == [0x31, 0x32, 0x33, 0x34, 0x35, 0x36, 0x37, 0x38, 0x39];
  }

  function ZeroBytes(n: nat): (b: bytes)
    ensures |b| == n
  {
    if n == 0 then [] else [0] + ZeroBytes(n - 1)
  }

  lemma ZeroStep(s: bv32, n: nat, half: bv32, t: bv32)
    requires n > 0 && Shift4(s) == half && Shift4(half) == t
    ensures Run(s, ZeroBytes(n)) == Run(t, ZeroBytes(n - 1))
  {
    hide Shift, Run;
    NothingAdded(s);
    KnownStep(s, 0, 0, half, t, ZeroBytes(n - 1));
  }

  lemma NothingAdded(s: bv32)
    ensures s ^ 0 == s
  {
  }

  lemma Zeros1()
    ensures Run(0xFFFFFFFF, ZeroBytes(32)) == Run(0x73D74D75, ZeroBytes(24))
  {
    hide Run, ZeroBytes;
    ZeroStep(0xFFFFFFFF, 32, 0xFC91908A, 0xAD82ACAE);
    ZeroStep(0xAD82ACAE, 31, 0xE9E882D0, 0x0E9E882D);
    ZeroStep(0x0E9E882D, 30, 0xD33A0929, 0x9F9B5C85);
    ZeroStep(0x9F9B5C85, 29, 0x58DC6F1B, 0xB798B438);
    ZeroStep(0xB798B438, 28, 0x898FB03B, 0xBA8D89CA);
    ZeroStep(0xBA8D89CA, 27, 0xA9E36D3A, 0xA8D58375);
    ZeroStep(0xA8D58375, 26, 0x5BA882E4, 0x44C19592);
    ZeroStep(0x44C19592, 25, 0x24F19787, 0x73D74D75);
  }

  lemma Zeros2()
    ensures Run(0x73D74D75, ZeroBytes(24)) == Run(0xBD8F6515, ZeroBytes(16))
  {
    hide Run, ZeroBytes;
    ZeroStep(0x73D74D75, 24, 0x5618AE04, 0x441A975C);
    ZeroStep(0x441A975C, 23, 0xC7CC8FB1, 0x1C220F94);
    ZeroStep(0x1C220F94, 22, 0x40B93D45, 0x552E4907);
    ZeroStep(0x552E4907, 21, 0x74CAB09D, 0xD49F4AA2);
    ZeroStep(0xD49F4AA2, 20, 0x2DF47A74, 0x43A45A1B);
    ZeroStep(0x43A45A1B, 19, 0xB62F3768, 0x8994C80E);
    ZeroStep(0x8994C80E, 18, 0xEBA9E49A, 0xACF12BEF);
    ZeroStep(0xACF12BEF, 17, 0xF9A17DCB, 0xBD8F6515);
  }

  lemma Zeros3()
    ensures Run(0xBD8F6515, ZeroBytes(16)) == Run(0x7B041311, ZeroBytes(8))
  {
    hide Run, ZeroBytes;
    ZeroStep(0xBD8F6515, 16, 0x5AFD2C82, 0x25125C16);
    ZeroStep(0x25125C16, 15, 0x6397B6A3, 0x36DA32DB);
    ZeroStep(0x36DA32DB, 14, 0xB178D1E4, 0x4A6C90A2);
    ZeroStep(0x4A6C90A2, 13, 0x241B47D4, 0x433AA9C1);
    ZeroStep(0x433AA9C1, 12, 0x146D6DF3, 0x31A59F6E);
    ZeroStep(0x31A59F6E, 11, 0xE02AF1EC, 0xCD8F89DA);
    ZeroStep(0xCD8F89DA, 10, 0xAE934D3B, 0xB8FC461A);
    ZeroStep(0xB8FC461A, 9, 0xA9C471C7, 0x7B041311);
  }

  lemma Zeros4()
    ensures Run(0x7B041311, ZeroBytes(8)) == Run(0x756EC955, ZeroBytes(0))
  {
    hide Run, ZeroBytes;
    ZeroStep(0x7B041311, 8, 0x17EE865E, 0xE24E407F);
    ZeroStep(0xE24E407F, 7, 0xFD4A8B72, 0x2F692669);
    ZeroStep(0x2F692669, 6, 0x905E6E71, 0x195B2188);
    ZeroStep(0x195B2188, 5, 0x83638960, 0x08363896);
    ZeroStep(0x08363896, 4, 0x6145F0EB, 0xB4012DC7);
    ZeroStep(0xB4012DC7, 3, 0x7AD846D1, 0x17F34302);
    ZeroStep(0x17F34302, 2, 0x21C2BAEE, 0xE12C83B4);
    ZeroStep(0xE12C83B4, 1, 0x4F69D587, 0x756EC955);
  }

  // The standard's own example, 32 bytes of zeros.
  lemma ZerosChecksum()
    ensures Checksum(ZeroBytes(32)) == 0x8A9136AA
  {
    hide Run;
    Zeros1();
    Zeros2();
    Zeros3();
    Zeros4();
    RunNothing(0x756EC955);
  }
}
