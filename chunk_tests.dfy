/** The tests of the chunk record, as lemmas: the crc test vector of
    `Chunk::new` and the buffer the parser tests read. */
module ChunkTests {
  import opened Primitives
  import Crc32
  import Utf8
  import ChunkTypes
  import opened Chunks

  /** `"RuSt".as_bytes()` (see `ChunkTypes.EncodeRuSt`) */
  const TestType: Bytes4 := [82, 117, 83, 116]

  /** `"This is where your secret message will be!".as_bytes()`, in blocks of
      eight bytes (see `EncodeTestText`). */
  const MessageBlock0: seq<uint8> := [84, 104, 105, 115, 32, 105, 115, 32]
  const MessageBlock1: seq<uint8> := [119, 104, 101, 114, 101, 32, 121, 111]
  const MessageBlock2: seq<uint8> := [117, 114, 32, 115, 101, 99, 114, 101]
  const MessageBlock3: seq<uint8> := [116, 32, 109, 101, 115, 115, 97, 103]
  const MessageBlock4: seq<uint8> := [101, 32, 119, 105, 108, 108, 32, 98]
  const MessageBlock5: seq<uint8> := [101, 33]
  const TestMessage: seq<uint8> :=
    MessageBlock0 + MessageBlock1 + MessageBlock2 + MessageBlock3 + MessageBlock4 + MessageBlock5

  /** The message text, in pieces of eight characters. */
  const TestText: string :=
    "This is " + "where yo" + "ur secre" + "t messag" + "e will b" + "e!"

  /** `TestMessage` is the text's byte string (`as_bytes`). */
  lemma EncodeTestText()
    ensures Utf8.Encode(TestText) == TestMessage
  {
    var t0 := EncodeTextBlock0();
    var t1 := EncodeTextBlock1();
    var t2 := EncodeTextBlock2();
    var t3 := EncodeTextBlock3();
    var t4 := EncodeTextBlock4();
    var t5 := EncodeTextBlock5();
    Utf8.EncodeAppend(t0, t1);
    Utf8.EncodeAppend(t0 + t1, t2);
    Utf8.EncodeAppend(t0 + t1 + t2, t3);
    Utf8.EncodeAppend(t0 + t1 + t2 + t3, t4);
    Utf8.EncodeAppend(t0 + t1 + t2 + t3 + t4, t5);
  }

  /** A piece of ASCII text encodes to the given bytes. */
  lemma EncodeAsciiBlock(s: string, bytes: seq<uint8>)
    requires |s| == |bytes| && forall i :: 0 <= i < |s| ==> s[i] as int == bytes[i] < 0x80
    ensures Utf8.Encode(s) == bytes
  {
    Utf8.EncodeAscii(s);
  }

  lemma EncodeTextBlock0() returns (t: string)
    ensures t == "This is " && Utf8.Encode(t) == MessageBlock0
  {
    t := "This is ";
    EncodeAsciiBlock(t, MessageBlock0);
  }

  lemma EncodeTextBlock1() returns (t: string)
    ensures t == "where yo" && Utf8.Encode(t) == MessageBlock1
  {
    t := "where yo";
    EncodeAsciiBlock(t, MessageBlock1);
  }

  lemma EncodeTextBlock2() returns (t: string)
    ensures t == "ur secre" && Utf8.Encode(t) == MessageBlock2
  {
    t := "ur secre";
    EncodeAsciiBlock(t, MessageBlock2);
  }

  lemma EncodeTextBlock3() returns (t: string)
    ensures t == "t messag" && Utf8.Encode(t) == MessageBlock3
  {
    t := "t messag";
    EncodeAsciiBlock(t, MessageBlock3);
  }

  lemma EncodeTextBlock4() returns (t: string)
    ensures t == "e will b" && Utf8.Encode(t) == MessageBlock4
  {
    t := "e will b";
    EncodeAsciiBlock(t, MessageBlock4);
  }

  lemma EncodeTextBlock5() returns (t: string)
    ensures t == "e!" && Utf8.Encode(t) == MessageBlock5
  {
    t := "e!";
    EncodeAsciiBlock(t, MessageBlock5);
  }

  /** The test vector: CRC-32/ISO-HDLC of "RuSt" followed by the 42-byte
      message is 2882656334. */
  lemma TestVectorChecksum()
    ensures |TestMessage| == 42
    ensures Crc32.Checksum(TestType + TestMessage) == 2882656334
  {
    var m1 := MessageBlock0;
    var m2 := m1 + MessageBlock1;
    var m3 := m2 + MessageBlock2;
    var m4 := m3 + MessageBlock3;
    var m5 := m4 + MessageBlock4;
    FeedTestType();
    var r := Crc32.Feed(Crc32.Init, TestType);
    FeedMessageBlock0();
    FeedMessageBlock1();
    Crc32.FeedAppend(r, m1, MessageBlock1);
    FeedMessageBlock2();
    Crc32.FeedAppend(r, m2, MessageBlock2);
    FeedMessageBlock3();
    Crc32.FeedAppend(r, m3, MessageBlock3);
    FeedMessageBlock4();
    Crc32.FeedAppend(r, m4, MessageBlock4);
    FeedMessageBlock5();
    Crc32.FeedAppend(r, m5, MessageBlock5);
    Crc32.FeedAppend(Crc32.Init, TestType, TestMessage);
    assert Crc32.Feed(Crc32.Init, TestType + TestMessage) == 0x542E_27B1;
  }

  /** `test_new_chunk`: a chunk built from "RuSt" and the message has
      length 42 and crc 2882656334. */
  method TestNewChunk() returns (c: Chunk)
    ensures c.Length() == 42 && c.Crc() == 2882656334
  {
    ChunkTypes.EncodeRuSt();
    var chunkType := ChunkTypes.FromStr("RuSt").value;
    EncodeTestText();
    c := New(chunkType, Utf8.Encode(TestText));
    TestVectorChecksum();
  }

  /** The buffer `testing_chunk` parses: length 42, type "RuSt", the message
      and the crc 2882656334. */
  const TestingChunkBytes: seq<uint8> := Layout(TestType, TestMessage, 2882656334)

  /** `test_chunk_length` and `test_chunk_type`: the parsed chunk has the
      header's length 42 and the type "RuSt"; its payload is only the first
      34 message bytes. */
  lemma TestTryFromTestingChunk()
    ensures TryFromDoesNotPanic(TestingChunkBytes)
    ensures TryFrom(TestingChunkBytes).Ok?
    ensures TryFrom(TestingChunkBytes).value.Length() == 42
    ensures |Utf8.Encode("RuSt")| == 4
    ensures TryFrom(TestingChunkBytes).value.Type() == ChunkTypes.FromStr("RuSt").value
    ensures TryFrom(TestingChunkBytes).value.Data() == TestMessage[..34]
  {
    TestVectorChecksum();
    TryFromLayout(TestType, TestMessage, 2882656334);
    ChunkTypes.EncodeRuSt();
  }

  // Register values while the test vector is fed block by block.

  lemma FeedTestType()
    ensures Crc32.Feed(0xFFFF_FFFF, TestType) == 0x2B7B_F6C3
  {
    var p: seq<uint8> := [];
    assert Crc32.UpdateByte(0xFFFF_FFFF, 82) == 0xA898_20AA by { assert (82 as bv32) == 82; }
    Crc32.FeedSnoc(0xFFFF_FFFF, p, 82); p := p + [82];
    assert Crc32.UpdateByte(0xA898_20AA, 117) == 0x16C4_5765 by { assert (117 as bv32) == 117; }
    Crc32.FeedSnoc(0xFFFF_FFFF, p, 117); p := p + [117];
    assert Crc32.UpdateByte(0x16C4_5765, 83) == 0xCFAC_51CE by { assert (83 as bv32) == 83; }
    Crc32.FeedSnoc(0xFFFF_FFFF, p, 83); p := p + [83];
    assert Crc32.UpdateByte(0xCFAC_51CE, 116) == 0x2B7B_F6C3 by { assert (116 as bv32) == 116; }
    Crc32.FeedSnoc(0xFFFF_FFFF, p, 116); p := p + [116];
    assert p == [82, 117, 83, 116];
  }

  lemma FeedMessageBlock0()
    ensures Crc32.Feed(0x2B7B_F6C3, MessageBlock0) == 0x0487_C27F
  {
    var p: seq<uint8> := [];
    assert Crc32.UpdateByte(0x2B7B_F6C3, 84) == 0x6E40_7D11 by { assert (84 as bv32) == 84; }
    Crc32.FeedSnoc(0x2B7B_F6C3, p, 84); p := p + [84];
    assert Crc32.UpdateByte(0x6E40_7D11, 104) == 0x29B7_89E5 by { assert (104 as bv32) == 104; }
    Crc32.FeedSnoc(0x2B7B_F6C3, p, 104); p := p + [104];
    assert Crc32.UpdateByte(0x29B7_89E5, 105) == 0xE427_7882 by { assert (105 as bv32) == 105; }
    Crc32.FeedSnoc(0x2B7B_F6C3, p, 105); p := p + [105];
    assert Crc32.UpdateByte(0xE427_7882, 115) == 0xCA5E_E5F2 by { assert (115 as bv32) == 115; }
    Crc32.FeedSnoc(0x2B7B_F6C3, p, 115); p := p + [115];
    assert Crc32.UpdateByte(0xCA5E_E5F2, 32) == 0x6817_ED1D by { assert (32 as bv32) == 32; }
    Crc32.FeedSnoc(0x2B7B_F6C3, p, 32); p := p + [32];
    assert Crc32.UpdateByte(0x6817_ED1D, 105) == 0x5700_A2C8 by { assert (105 as bv32) == 105; }
    Crc32.FeedSnoc(0x2B7B_F6C3, p, 105); p := p + [105];
    assert Crc32.UpdateByte(0x5700_A2C8, 115) == 0x5CE4_6AA6 by { assert (115 as bv32) == 115; }
    Crc32.FeedSnoc(0x2B7B_F6C3, p, 115); p := p + [115];
    assert Crc32.UpdateByte(0x5CE4_6AA6, 32) == 0x0487_C27F by { assert (32 as bv32) == 32; }
    Crc32.FeedSnoc(0x2B7B_F6C3, p, 32); p := p + [32];
    assert p == [84, 104, 105, 115, 32, 105, 115, 32];
  }

  lemma FeedMessageBlock1()
    ensures Crc32.Feed(0x0487_C27F, MessageBlock1) == 0x0A65_C7D4
  {
    var p: seq<uint8> := [];
    assert Crc32.UpdateByte(0x0487_C27F, 119) == 0x0EDF_0FF0 by { assert (119 as bv32) == 119; }
    Crc32.FeedSnoc(0x0487_C27F, p, 119); p := p + [119];
    assert Crc32.UpdateByte(0x0EDF_0FF0, 104) == 0xFEDA_C479 by { assert (104 as bv32) == 104; }
    Crc32.FeedSnoc(0x0487_C27F, p, 104); p := p + [104];
    assert Crc32.UpdateByte(0xFEDA_C479, 101) == 0x14FF_868B by { assert (101 as bv32) == 101; }
    Crc32.FeedSnoc(0x0487_C27F, p, 101); p := p + [101];
    assert Crc32.UpdateByte(0x14FF_868B, 114) == 0xC475_B53E by { assert (114 as bv32) == 114; }
    Crc32.FeedSnoc(0x0487_C27F, p, 114); p := p + [114];
    assert Crc32.UpdateByte(0xC475_B53E, 101) == 0xFC7D_FDC9 by { assert (101 as bv32) == 101; }
    Crc32.FeedSnoc(0x0487_C27F, p, 101); p := p + [101];
    assert Crc32.UpdateByte(0xFC7D_FDC9, 32) == 0xD92A_2721 by { assert (32 as bv32) == 32; }
    Crc32.FeedSnoc(0x0487_C27F, p, 32); p := p + [32];
    assert Crc32.UpdateByte(0xD92A_2721, 121) == 0x6569_F3E1 by { assert (121 as bv32) == 121; }
    Crc32.FeedSnoc(0x0487_C27F, p, 121); p := p + [121];
    assert Crc32.UpdateByte(0x6569_F3E1, 111) == 0x0A65_C7D4 by { assert (111 as bv32) == 111; }
    Crc32.FeedSnoc(0x0487_C27F, p, 111); p := p + [111];
    assert p == [119, 104, 101, 114, 101, 32, 121, 111];
  }

  lemma FeedMessageBlock2()
    ensures Crc32.Feed(0x0A65_C7D4, MessageBlock2) == 0xD945_629F
  {
    var p: seq<uint8> := [];
    assert Crc32.UpdateByte(0x0A65_C7D4, 117) == 0xA1DB_F6B9 by { assert (117 as bv32) == 117; }
    Crc32.FeedSnoc(0x0A65_C7D4, p, 117); p := p + [117];
    assert Crc32.UpdateByte(0xA1DB_F6B9, 114) == 0x0C17_C0CE by { assert (114 as bv32) == 114; }
    Crc32.FeedSnoc(0x0A65_C7D4, p, 114); p := p + [114];
    assert Crc32.UpdateByte(0x0C17_C0CE, 32) == 0x47BE_D8BF by { assert (32 as bv32) == 32; }
    Crc32.FeedSnoc(0x0A65_C7D4, p, 32); p := p + [32];
    assert Crc32.UpdateByte(0x47BE_D8BF, 115) == 0x9295_3043 by { assert (115 as bv32) == 115; }
    Crc32.FeedSnoc(0x0A65_C7D4, p, 115); p := p + [115];
    assert Crc32.UpdateByte(0x9295_3043, 101) == 0xD29F_10CD by { assert (101 as bv32) == 101; }
    Crc32.FeedSnoc(0x0A65_C7D4, p, 101); p := p + [101];
    assert Crc32.UpdateByte(0xD29F_10CD, 99) == 0x31BC_11FF by { assert (99 as bv32) == 99; }
    Crc32.FeedSnoc(0x0A65_C7D4, p, 99); p := p + [99];
    assert Crc32.UpdateByte(0x31BC_11FF, 114) == 0x9338_438C by { assert (114 as bv32) == 114; }
    Crc32.FeedSnoc(0x0A65_C7D4, p, 114); p := p + [114];
    assert Crc32.UpdateByte(0x9338_438C, 101) == 0xD945_629F by { assert (101 as bv32) == 101; }
    Crc32.FeedSnoc(0x0A65_C7D4, p, 101); p := p + [101];
    assert p == [117, 114, 32, 115, 101, 99, 114, 101];
  }

  lemma FeedMessageBlock3()
    ensures Crc32.Feed(0xD945_629F, MessageBlock3) == 0xB3EB_484F
  {
    var p: seq<uint8> := [];
    assert Crc32.UpdateByte(0xD945_629F, 116) == 0x3701_7E92 by { assert (116 as bv32) == 116; }
    Crc32.FeedSnoc(0xD945_629F, p, 116); p := p + [116];
    assert Crc32.UpdateByte(0x3701_7E92, 32) == 0x2558_D3DE by { assert (32 as bv32) == 32; }
    Crc32.FeedSnoc(0xD945_629F, p, 32); p := p + [32];
    assert Crc32.UpdateByte(0x2558_D3DE, 109) == 0x524D_BAE5 by { assert (109 as bv32) == 109; }
    Crc32.FeedSnoc(0xD945_629F, p, 109); p := p + [109];
    assert Crc32.UpdateByte(0x524D_BAE5, 101) == 0xEDEA_CE9A by { assert (101 as bv32) == 101; }
    Crc32.FeedSnoc(0xD945_629F, p, 101); p := p + [101];
    assert Crc32.UpdateByte(0xEDEA_CE9A, 115) == 0xD93B_B012 by { assert (115 as bv32) == 115; }
    Crc32.FeedSnoc(0xD945_629F, p, 115); p := p + [115];
    assert Crc32.UpdateByte(0xD93B_B012, 115) == 0x3A6C_6A7E by { assert (115 as bv32) == 115; }
    Crc32.FeedSnoc(0xD945_629F, p, 115); p := p + [115];
    assert Crc32.UpdateByte(0x3A6C_6A7E, 97) == 0x8D32_619F by { assert (97 as bv32) == 97; }
    Crc32.FeedSnoc(0xD945_629F, p, 97); p := p + [97];
    assert Crc32.UpdateByte(0x8D32_619F, 103) == 0xB3EB_484F by { assert (103 as bv32) == 103; }
    Crc32.FeedSnoc(0xD945_629F, p, 103); p := p + [103];
    assert p == [116, 32, 109, 101, 115, 115, 97, 103];
  }

  lemma FeedMessageBlock4()
    ensures Crc32.Feed(0xB3EB_484F, MessageBlock4) == 0x7F0B_93F5
  {
    var p: seq<uint8> := [];
    assert Crc32.UpdateByte(0xB3EB_484F, 101) == 0xDB08_229E by { assert (101 as bv32) == 101; }
    Crc32.FeedSnoc(0xB3EB_484F, p, 101); p := p + [101];
    assert Crc32.UpdateByte(0xDB08_229E, 32) == 0x2C02_96A9 by { assert (32 as bv32) == 32; }
    Crc32.FeedSnoc(0xB3EB_484F, p, 32); p := p + [32];
    assert Crc32.UpdateByte(0x2C02_96A9, 119) == 0x6147_FD45 by { assert (119 as bv32) == 119; }
    Crc32.FeedSnoc(0xB3EB_484F, p, 119); p := p + [119];
    assert Crc32.UpdateByte(0x6147_FD45, 105) == 0x32B9_2B1E by { assert (105 as bv32) == 105; }
    Crc32.FeedSnoc(0xB3EB_484F, p, 105); p := p + [105];
    assert Crc32.UpdateByte(0x32B9_2B1E, 108) == 0xBE39_A93B by { assert (108 as bv32) == 108; }
    Crc32.FeedSnoc(0xB3EB_484F, p, 108); p := p + [108];
    assert Crc32.UpdateByte(0xBE39_A93B, 108) == 0xF5B1_FDFE by { assert (108 as bv32) == 108; }
    Crc32.FeedSnoc(0xB3EB_484F, p, 108); p := p + [108];
    assert Crc32.UpdateByte(0xF5B1_FDFE, 32) == 0x619E_4E2E by { assert (32 as bv32) == 32; }
    Crc32.FeedSnoc(0xB3EB_484F, p, 32); p := p + [32];
    assert Crc32.UpdateByte(0x619E_4E2E, 98) == 0x7F0B_93F5 by { assert (98 as bv32) == 98; }
    Crc32.FeedSnoc(0xB3EB_484F, p, 98); p := p + [98];
    assert p == [101, 32, 119, 105, 108, 108, 32, 98];
  }

  lemma FeedMessageBlock5()
    ensures Crc32.Feed(0x7F0B_93F5, MessageBlock5) == 0x542E_27B1
  {
    var p: seq<uint8> := [];
    assert Crc32.UpdateByte(0x7F0B_93F5, 101) == 0xF070_98D7 by { assert (101 as bv32) == 101; }
    Crc32.FeedSnoc(0x7F0B_93F5, p, 101); p := p + [101];
    assert Crc32.UpdateByte(0xF070_98D7, 33) == 0x542E_27B1 by { assert (33 as bv32) == 33; }
    Crc32.FeedSnoc(0x7F0B_93F5, p, 33); p := p + [33];
    assert p == [101, 33];
  }
}
