/** The four-byte chunk type tag (`ChunkType` of the chunk codec): a plain
    value, compared and cloned byte by byte. Only its constructors exist:
    no validity, critical, public or safe-to-copy predicate is defined. */
module ChunkTypes {
  import opened Primitives
  import Utf8

  /** The tag's four raw bytes; equality is the derived `PartialEq`. */
  datatype ChunkType = ChunkType(bytes: Bytes4) {
    /** `bytes()`: the stored array, by value. */
    function Bytes(): (b: Bytes4)
      ensures b == bytes
    {
      bytes
    }
  }

  /** `ChunkType::new`, called by the chunk parser but not defined next to
      the type: it wraps the given four bytes. */
  function New(bytes: Bytes4): (t: ChunkType)
    ensures t.Bytes() == bytes
  {
    ChunkType(bytes)
  }

  /** `i as u8` on an `i32`: keeps the low eight bits of the two's
      complement word, so the byte is congruent to `i` modulo 256. */
  function AsU8(i: int32): (b: uint8)
    ensures (i - b) % 0x100 == 0
    ensures 0 <= i < 0x100 ==> b == i
  {
    i % 0x100
  }

  /** The low byte of the 32-bit two's complement word of `i` is `AsU8(i)`. */
  lemma AsU8IsLowByteOfTwosComplement(i: int32)
    ensures (if i < 0 then i + 0x1_0000_0000 else i) % 0x100 == AsU8(i)
  {
  }

  /** `TryFrom<[i32; 4]>`: `value.map(|i| i as u8)`. It never fails. */
  function TryFromI32s(value: seq<int32>): (r: Result<ChunkType>)
    requires |value| == 4
    ensures r.Ok?
    ensures forall k :: 0 <= k < 4 ==> r.value.Bytes()[k] == AsU8(value[k])
  {
    var bytes: Bytes4 := seq(4, k requires 0 <= k < 4 => AsU8(value[k]));
    Ok(ChunkType(bytes))
  }

  /** Values that already are bytes are kept exactly, in order. */
  lemma TryFromByteValues(value: seq<int32>)
    requires |value| == 4
    requires forall k :: 0 <= k < 4 ==> 0 <= value[k] < 0x100
    ensures TryFromI32s(value).Ok? && TryFromI32s(value).value.Bytes() == value
  {
  }

  /** `FromStr`: the string's UTF-8 bytes, which `try_into().unwrap()`
      demands to be exactly four (otherwise it panics). There is no check on
      the characters themselves and no `Err` result. */
  function FromStr(s: string): (r: Result<ChunkType>)
    requires |Utf8.Encode(s)| == 4
    ensures r.Ok? && r.value.Bytes() == Utf8.Encode(s)
  {
    Ok(ChunkType(Utf8.Encode(s)))
  }

  /** Four ASCII characters: parsing the text gives the same tag as
      converting the character codes. */
  lemma FromStrAgreesWithTryFrom(s: string)
    requires |s| == 4 && Utf8.IsAscii(s)
    ensures |Utf8.Encode(s)| == 4
    ensures FromStr(s) == TryFromI32s([s[0] as int, s[1] as int, s[2] as int, s[3] as int])
  {
    Utf8.EncodeAscii(s);
    var codes: seq<int32> := [s[0] as int, s[1] as int, s[2] as int, s[3] as int];
    TryFromByteValues(codes);
    assert Utf8.Encode(s) == codes;
  }

  /** A four-character string is accepted exactly when it is ASCII. */
  lemma FromStrAcceptsFourAsciiChars(s: string)
    requires |s| == 4
    ensures |Utf8.Encode(s)| == 4 <==> Utf8.IsAscii(s)
  {
    Utf8.EncodeLengthIsCharCountIffAscii(s);
  }

  /** Two tags are equal exactly when their four bytes are equal position by
      position. */
  lemma EqualityIsBytewise(a: ChunkType, b: ChunkType)
    ensures a == b <==> forall k :: 0 <= k < 4 ==> a.Bytes()[k] == b.Bytes()[k]
  {
    if forall k :: 0 <= k < 4 ==> a.Bytes()[k] == b.Bytes()[k] {
      assert a.Bytes() == a.bytes && b.Bytes() == b.bytes;
      assert a.bytes == b.bytes;
    }
  }

  /** The bytes of the text "RuSt". */
  lemma EncodeRuSt()
    ensures Utf8.Encode("RuSt") == [82, 117, 83, 116]
  {
  }

  /** `test_chunk_type_from_bytes`: the bytes of `try_from([82, 117, 83, 116])`. */
  lemma TestChunkTypeFromBytes()
    ensures TryFromI32s([82, 117, 83, 116]).Ok?
    ensures TryFromI32s([82, 117, 83, 116]).value.Bytes() == [82, 117, 83, 116]
  {
  }

  /** `test_chunk_type_from_str`: "RuSt" parses to the same tag. */
  lemma TestChunkTypeFromStr()
    ensures |Utf8.Encode("RuSt")| == 4
    ensures FromStr("RuSt") == TryFromI32s([82, 117, 83, 116])
  {
    EncodeRuSt();
    TestChunkTypeFromBytes();
  }
}
