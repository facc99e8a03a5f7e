/** A known key: the text that the program's own tests decode, worked out from the alphabet to the limits. */
module KnownKey {
  import opened Prelude
  import opened Arithmetic
  import opened LittleEndian
  import opened Register
  import opened Checksum
  import opened Regroup
  import opened Bech32
  import opened ApiKeyCodec

  const KEY: string := "rl-none1qyyqwps9qspsyq2sk8e0sfdp3ys"
  const DATA_TEXT: string := "qyyqwps9qspsyq2sk8e0sfdp3ys"
  const SYMBOLS: seq<byte> := [0, 4, 4, 0, 14, 1, 16, 5, 0, 16, 1, 16, 4, 0, 10, 16, 22, 7, 25, 15, 16]
  const CHECKSUM: seq<byte> := [9, 13, 1, 17, 4, 16]
  const PAYLOAD: seq<byte> := [1, 8, 7, 6, 5, 4, 3, 2, 1, 80, 177, 242, 248]

  // ---------------------------------------------------------------- the checksum

  lemma SixSymbols(chk: bv32, s: seq<byte>)
    requires |s| == 6
    ensures Run(chk, Words(s))
         == Step(Step(Step(Step(Step(Step(chk, Word(s[0])), Word(s[1])), Word(s[2])), Word(s[3])), Word(s[4])), Word(s[5]))
  {
    WordsShape(s);
    RunSix(chk, Words(s));
    hide Step, Word, Run;
  }

  lemma Steps0()
    ensures Step(0x1, 3) == 0x23
    ensures Step(0x23, 3) == 0x463
    ensures Step(0x463, 1) == 0x8c61
  {}

  lemma Steps3()
    ensures Step(0x8c61, 3) == 0x118c23
    ensures Step(0x118c23, 3) == 0x2318463
    ensures Step(0x2318463, 3) == 0x3d5adbd1
  {}

  lemma Symbols0()
    ensures Run(0x1, Words([3, 3, 1, 3, 3, 3])) == 0x3d5adbd1
  {
    SixSymbols(0x1, [3, 3, 1, 3, 3, 3]);
    hide Run, Words, Step;
    Steps0();
    Steps3();
    WordOfInt(1);
    WordOfInt(3);
    hide Word;
  }

  lemma Steps6()
    ensures Step(0x3d5adbd1, 3) == 0x4fcbcda
    ensures Step(0x4fcbcda, 0) == 0x39c7152d
    ensures Step(0x39c7152d, 18) == 0x3115ed26
  {}

  lemma Steps9()
    ensures Step(0x3115ed26, 12) == 0x35ebf5a2
    ensures Step(0x35ebf5a2, 13) == 0xc786b4e
    ensures Step(0xc786b4e, 14) == 0x37fcfe59
  {}

  lemma Symbols6()
    ensures Run(0x3d5adbd1, Words([3, 0, 18, 12, 13, 14])) == 0x37fcfe59
  {
    SixSymbols(0x3d5adbd1, [3, 0, 18, 12, 13, 14]);
    hide Run, Words, Step;
    Steps6();
    Steps9();
    WordOfInt(0);
    WordOfInt(3);
    WordOfInt(12);
    WordOfInt(13);
    WordOfInt(14);
    WordOfInt(18);
    hide Word;
  }

  lemma Steps12()
    ensures Step(0x37fcfe59, 15) == 0x35f3439e
    ensures Step(0x35f3439e, 14) == 0xf6eaccd
    ensures Step(0xf6eaccd, 5) == 0x2e4e5980
  {}

  lemma Steps15()
    ensures Step(0x2e4e5980, 0) == 0x20449296
    ensures Step(0x20449296, 4) == 0x22863077
    ensures Step(0x22863077, 4) == 0x1b83be5
  {}

  lemma Symbols12()
    ensures Run(0x37fcfe59, Words([15, 14, 5, 0, 4, 4])) == 0x1b83be5
  {
    SixSymbols(0x37fcfe59, [15, 14, 5, 0, 4, 4]);
    hide Run, Words, Step;
    Steps12();
    Steps15();
    WordOfInt(0);
    WordOfInt(4);
    WordOfInt(5);
    WordOfInt(14);
    WordOfInt(15);
    hide Word;
  }

  lemma Steps18()
    ensures Step(0x1b83be5, 0) == 0x37077ca0
    ensures Step(0x37077ca0, 14) == 0x2a831cbf
    ensures Step(0x2a831cbf, 1) == 0x1fbcbb1a
  {}

  lemma Steps21()
    ensures Step(0x1fbcbb1a, 16) == 0x94e90a8
    ensures Step(0x94e90a8, 5) == 0x37730cff
    ensures Step(0x37730cff, 0) == 0x240d1751
  {}

  lemma Symbols18()
    ensures Run(0x1b83be5, Words([0, 14, 1, 16, 5, 0])) == 0x240d1751
  {
    SixSymbols(0x1b83be5, [0, 14, 1, 16, 5, 0]);
    hide Run, Words, Step;
    Steps18();
    Steps21();
    WordOfInt(0);
    WordOfInt(1);
    WordOfInt(5);
    WordOfInt(14);
    WordOfInt(16);
    hide Word;
  }

  lemma Steps24()
    ensures Step(0x240d1751, 16) == 0xde606ee
    ensures Step(0xde606ee, 1) == 0x4314a56
    ensures Step(0x4314a56, 16) == 0x2079c4bd
  {}

  lemma Steps27()
    ensures Step(0x2079c4bd, 4) == 0x252cf517
    ensures Step(0x252cf517, 0) == 0x29da4e3e
    ensures Step(0x29da4e3e, 10) == 0xffcbc83
  {}

  lemma Symbols24()
    ensures Run(0x240d1751, Words([16, 1, 16, 4, 0, 10])) == 0xffcbc83
  {
    SixSymbols(0x240d1751, [16, 1, 16, 4, 0, 10]);
    hide Run, Words, Step;
    Steps24();
    Steps27();
    WordOfInt(0);
    WordOfInt(1);
    WordOfInt(4);
    WordOfInt(10);
    WordOfInt(16);
    hide Word;
  }

  lemma Steps30()
    ensures Step(0xffcbc83, 16) == 0x3c0c5055
    ensures Step(0x3c0c5055, 22) == 0x2e2dcc4f
    ensures Step(0x2e2dcc4f, 7) == 0x2c362b71
  {}

  lemma Steps33()
    ensures Step(0x2c362b71, 25) == 0x14209b1d
    ensures Step(0x14209b1d, 15) == 0x1f01de1f
    ensures Step(0x1f01de1f, 16) == 0x1ee23008
  {}

  lemma Symbols30()
    ensures Run(0xffcbc83, Words([16, 22, 7, 25, 15, 16])) == 0x1ee23008
  {
    SixSymbols(0xffcbc83, [16, 22, 7, 25, 15, 16]);
    hide Run, Words, Step;
    Steps30();
    Steps33();
    WordOfInt(7);
    WordOfInt(15);
    WordOfInt(16);
    WordOfInt(22);
    WordOfInt(25);
    hide Word;
  }

  lemma Steps36()
    ensures Step(0x1ee23008, 9) == 0x229ff2f1
    ensures Step(0x229ff2f1, 13) == 0x2806b2c
    ensures Step(0x2806b2c, 1) == 0x2b673233
  {}

  lemma Steps39()
    ensures Step(0x2b673233, 17) == 0x23396a8a
    ensures Step(0x23396a8a, 4) == 0x36536445
    ensures Step(0x36536445, 16) == 0x1
  {}

  lemma Symbols36()
    ensures Run(0x1ee23008, Words([9, 13, 1, 17, 4, 16])) == 0x1
  {
    SixSymbols(0x1ee23008, [9, 13, 1, 17, 4, 16]);
    hide Run, Words, Step;
    Steps36();
    Steps39();
    WordOfInt(1);
    WordOfInt(4);
    WordOfInt(9);
    WordOfInt(13);
    WordOfInt(16);
    WordOfInt(17);
    hide Word;
  }

  lemma KnownExpansion()
    ensures HrpExpansion([114, 108, 45, 110, 111, 110, 101]) == [3, 3, 1, 3, 3, 3, 3, 0, 18, 12, 13, 14, 15, 14, 5]
  {}

  lemma KnownPieces()
    ensures [3, 3, 1, 3, 3, 3, 3, 0, 18, 12, 13, 14, 15, 14, 5] + (SYMBOLS + CHECKSUM)
         == [3, 3, 1, 3, 3, 3] + [3, 0, 18, 12, 13, 14] + [15, 14, 5, 0, 4, 4] + [0, 14, 1, 16, 5, 0] + [16, 1, 16, 4, 0, 10] + [16, 22, 7, 25, 15, 16] + [9, 13, 1, 17, 4, 16]
  {}

  /** The checksum of the key verifies. */
  lemma KnownChecksum()
    ensures Verifies([114, 108, 45, 110, 111, 110, 101], SYMBOLS + CHECKSUM)
  {
    var s0: seq<byte> := [3, 3, 1, 3, 3, 3];
    var s1: seq<byte> := [3, 0, 18, 12, 13, 14];
    var s2: seq<byte> := [15, 14, 5, 0, 4, 4];
    var s3: seq<byte> := [0, 14, 1, 16, 5, 0];
    var s4: seq<byte> := [16, 1, 16, 4, 0, 10];
    var s5: seq<byte> := [16, 22, 7, 25, 15, 16];
    var s6: seq<byte> := [9, 13, 1, 17, 4, 16];
    KnownExpansion();
    KnownPieces();
    hide *;
    assert PolymodOf(s0) == 0x3d5adbd1 by { Symbols0(); }
    PolymodSplit(s0, s1);
    Symbols6();
    PolymodSplit(s0 + s1, s2);
    Symbols12();
    PolymodSplit(s0 + s1 + s2, s3);
    Symbols18();
    PolymodSplit(s0 + s1 + s2 + s3, s4);
    Symbols24();
    PolymodSplit(s0 + s1 + s2 + s3 + s4, s5);
    Symbols30();
    PolymodSplit(s0 + s1 + s2 + s3 + s4 + s5, s6);
    Symbols36();
  }

  // ---------------------------------------------------------------- the payload

  lemma NextDigit(data: seq<byte>, k: nat, width: nat)
    requires k < |data|
    ensures Number(data[..k + 1], width) == Number(data[..k], width) * Pow2(width) + data[k]
  {
    assert data[..k + 1][..k] == data[..k];
  }

  lemma SymbolNumber()
    ensures Number(SYMBOLS, 5) == 0x2100e0c0a08060402a163e5f0
  {
    SmallPowers();
    hide Pow2, Number;
    assert Number(SYMBOLS[..0], 5) == 0 by { NoDigits(5); }
    NextDigit(SYMBOLS, 0, 5);
    NextDigit(SYMBOLS, 1, 5);
    assert Number(SYMBOLS[..2], 5) == 0x4;
    NextDigit(SYMBOLS, 2, 5);
    NextDigit(SYMBOLS, 3, 5);
    assert Number(SYMBOLS[..4], 5) == 0x1080;
    NextDigit(SYMBOLS, 4, 5);
    NextDigit(SYMBOLS, 5, 5);
    assert Number(SYMBOLS[..6], 5) == 0x4201c1;
    NextDigit(SYMBOLS, 6, 5);
    NextDigit(SYMBOLS, 7, 5);
    assert Number(SYMBOLS[..8], 5) == 0x108070605;
    NextDigit(SYMBOLS, 8, 5);
    NextDigit(SYMBOLS, 9, 5);
    assert Number(SYMBOLS[..10], 5) == 0x4201c181410;
    NextDigit(SYMBOLS, 10, 5);
    NextDigit(SYMBOLS, 11, 5);
    assert Number(SYMBOLS[..12], 5) == 0x10807060504030;
    NextDigit(SYMBOLS, 12, 5);
    NextDigit(SYMBOLS, 13, 5);
    assert Number(SYMBOLS[..14], 5) == 0x4201c1814100c080;
    NextDigit(SYMBOLS, 14, 5);
    NextDigit(SYMBOLS, 15, 5);
    assert Number(SYMBOLS[..16], 5) == 0x1080706050403020150;
    NextDigit(SYMBOLS, 16, 5);
    NextDigit(SYMBOLS, 17, 5);
    assert Number(SYMBOLS[..18], 5) == 0x4201c1814100c080542c7;
    NextDigit(SYMBOLS, 18, 5);
    NextDigit(SYMBOLS, 19, 5);
    assert Number(SYMBOLS[..20], 5) == 0x1080706050403020150b1f2f;
    NextDigit(SYMBOLS, 20, 5);
    assert SYMBOLS[..21] == SYMBOLS;
  }

  lemma PayloadNumber()
    ensures Number(PAYLOAD, 8) == 0x1080706050403020150b1f2f8
  {
    SmallPowers();
    hide Pow2, Number;
    assert Number(PAYLOAD[..0], 8) == 0 by { NoDigits(8); }
    NextDigit(PAYLOAD, 0, 8);
    NextDigit(PAYLOAD, 1, 8);
    NextDigit(PAYLOAD, 2, 8);
    NextDigit(PAYLOAD, 3, 8);
    assert Number(PAYLOAD[..4], 8) == 0x1080706;
    NextDigit(PAYLOAD, 4, 8);
    NextDigit(PAYLOAD, 5, 8);
    NextDigit(PAYLOAD, 6, 8);
    NextDigit(PAYLOAD, 7, 8);
    assert Number(PAYLOAD[..8], 8) == 0x108070605040302;
    NextDigit(PAYLOAD, 8, 8);
    NextDigit(PAYLOAD, 9, 8);
    NextDigit(PAYLOAD, 10, 8);
    NextDigit(PAYLOAD, 11, 8);
    assert Number(PAYLOAD[..12], 8) == 0x1080706050403020150b1f2;
    NextDigit(PAYLOAD, 12, 8);
    assert PAYLOAD[..13] == PAYLOAD;
  }

  lemma KnownRegrouping()
    ensures Regrouped(SYMBOLS, 5, 8, false) == Some(PAYLOAD)
  {
    SymbolNumber();
    PayloadNumber();
    FiveBitsRoundTrip(PAYLOAD);
    FiveBitsAreSymbols(SYMBOLS);
    DigitsOfNumber(SYMBOLS, 5);
    BytesFit(PAYLOAD);
    hide Number, Digits;
    assert Shl(Number(PAYLOAD, 8), 1) == Number(SYMBOLS, 5) by { SmallPowers(); }
    assert Regrouped(PAYLOAD, 8, 5, true) == Some(SYMBOLS);
  }

  // ---------------------------------------------------------------- the whole key

  lemma KnownCharacters()
    ensures Symbols(SYMBOLS + CHECKSUM) && Chars(SYMBOLS + CHECKSUM) == DATA_TEXT
  {
  }

  lemma KnownPrefix()
    ensures AllPrintable("rl-none") && Bytes("rl-none") == [114, 108, 45, 110, 111, 110, 101]
  {}

  lemma KnownParts()
    ensures AllPrintable("rl-none") && AllPrintable(DATA_TEXT) && !HasUpper(DATA_TEXT) && '1' !in DATA_TEXT
    ensures DecodeParts("rl-none", DATA_TEXT) == Ok(Decoded("rl-none", PAYLOAD))
  {
    var data := SYMBOLS + CHECKSUM;
    KnownPrefix();
    KnownCharacters();
    KnownChecksum();
    KnownRegrouping();
    CharsPlain(data);
    ValuesOfChars(data);
    assert data[..21] == SYMBOLS && |data| == 27;
    hide Verifies, Regrouped, Bytes, Values, Chars, Symbols, AllPrintable, HasUpper;
  }

  lemma KnownText()
    ensures DecodeText("rl-none1" + DATA_TEXT) == Ok(Decoded("rl-none", PAYLOAD))
  {
    KnownParts();
    var text := "rl-none" + ['1'] + DATA_TEXT;
    assert "rl-none1" + DATA_TEXT == text;
    assert !HasUpper("rl-none");
    PlainText("rl-none", DATA_TEXT);
    hide *;
    FramedText("rl-none", DATA_TEXT);
    AlreadyLower(text);
  }

  lemma AlreadyLower(text: string)
    requires text != [] && AllPrintable(text) && !HasUpper(text)
    ensures Lower(text) == text && DecodeText(text) == DecodeLower(text)
  {
    hide DecodeLower;
    assert Lower(text) == text;
  }

  lemma KnownFields()
    ensures Unpack(0xF8F2_B150) == Fields(16, 10, 12, 5, 30, 31)
  {}

  lemma KnownPowers()
    ensures Pow2(16) == 65_536 && Pow2(10) == 1_024 && Pow2(12) == 4_096 && Pow2(5) == 32
  {
    SmallPowers();
    PowSum(8, 8);
    PowSum(5, 5);
    PowSum(6, 6);
  }

  lemma KnownWord()
    ensures LimitsOf(0xF8F2_B150) == Ok(ApiKeyLimits(65_536, 1_024, 4_096, 32, 300, 0xFFFF_FFFF))
  {
    KnownFields();
    KnownPowers();
    hide Pow2, Unpack;
  }

  lemma KnownPayload()
    ensures DecodePayload("rl-none", PAYLOAD)
         == Ok(DecodedApiKey("rl-none", "none", 1, 0x0102_0304_0506_0708, [],
                             Some(ApiKeyLimits(65_536, 1_024, 4_096, 32, 300, 0xFFFF_FFFF))))
  {
    KnownWord();
    var id := PAYLOAD[1..9];
    assert id[0..4] == PAYLOAD[1..5] && id[4..8] == PAYLOAD[5..9];
    FourBytes(PAYLOAD[1..5]);
    FourBytes(PAYLOAD[5..9]);
    EightBytes(id);
    FourBytes(PAYLOAD[9..13]);
    hide FromLe, LimitsOf;
    assert PAYLOAD[9..] == PAYLOAD[9..13] && PAYLOAD[9..9] == [];
    assert ReadU32(PAYLOAD[9..]) == 0xF8F2_B150;
    assert ReadU64(id) == 0x0102_0304_0506_0708;
    hide ReadU32, ReadU64;
    VersionedAccepted("rl-none", PAYLOAD);
    assert "rl-" + "none" == "rl-none";
  }

  lemma KeyParts()
    ensures KEY == "rl-none1" + DATA_TEXT
  {}

  /** The key of the tests decodes to its version, key id and limits. */
  lemma KnownKeyDecodes()
    ensures DecodeApiKey(KEY)
         == Ok(DecodedApiKey("rl-none", "none", 1, 0x0102_0304_0506_0708, [],
                             Some(ApiKeyLimits(65_536, 1_024, 4_096, 32, 300, 0xFFFF_FFFF))))
  {
    KeyParts();
    KnownText();
    hide DecodeText, DecodePayload;
    KnownPayload();
  }
}
