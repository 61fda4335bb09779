/** One chunk record (`Chunk` of the chunk codec): a length, a type tag, a
    payload and a checksum. A chunk is built either from a type and a
    payload, which computes the length and the CRC, or by parsing a byte
    buffer, which copies all four fields out of the buffer. */
module Chunks {
  import opened Primitives
  import Crc32
  import Utf8
  import opened ChunkTypes

  /** The record, immutable once built. */
  datatype Chunk = Chunk(dataLength: uint32, chunkType: ChunkType, chunkData: seq<uint8>, crc: uint32) {
    /** `length()`: the stored length, unchanged. */
    function Length(): (n: uint32)
      ensures n == dataLength
    {
      dataLength
    }

    /** `chunk_type()`: a clone of the stored tag. */
    function Type(): (t: ChunkType)
      ensures t == chunkType
    {
      chunkType
    }

    /** `data()`: the stored payload, unchanged. */
    function Data(): (d: seq<uint8>)
      ensures d == chunkData
    {
      chunkData
    }

    /** `crc()`: the stored crc, unchanged. */
    function Crc(): (c: uint32)
      ensures c == crc
    {
      crc
    }
  }

  /** `Chunk::new`: the length is the payload's byte count as a `u32`, the
      crc is CRC-32/ISO-HDLC of the type's four bytes followed by the
      payload, and the type and payload are kept as given. */
  method New(chunkType: ChunkType, data: seq<uint8>) returns (c: Chunk)
    ensures c.Length() == TruncateToU32(|data|)
    ensures c.Type() == chunkType && c.Data() == data
    ensures c.Crc() == Crc32.Checksum(chunkType.Bytes() + data)
  {
    var digest := new Crc32.Digest();
    digest.Update(chunkType.Bytes());
    digest.Update(data);
    var calculatedCrc := digest.Finalize();
    assert digest.fed == chunkType.Bytes() + data;
    c := Chunk(TruncateToU32(|data|), chunkType, data, calculatedCrc);
  }

  /** The big-endian length in the first four bytes of a buffer. */
  function HeaderLength(value: seq<uint8>): uint32
    requires |value| >= 4
  {
    FromBigEndian(value[0..4])
  }

  /** The parser indexes its buffer without checking bounds; it runs to
      completion exactly when every slice it takes is in range. */
  predicate TryFromDoesNotPanic(value: seq<uint8>) {
    && |value| >= 4                              // value[0..4]
    && |value| >= 8                              // value[4..8]
    && 8 <= HeaderLength(value) <= |value|       // value[8..length]
    && 8 + HeaderLength(value) <= |value|        // value[(8 + length)..]
  }

  /** `TryFrom<&[u8]>`, as written: the length and type come from the
      header, the payload is `value[8..length]` (not `value[8..8 + length]`),
      and the crc is whatever follows offset `8 + length`, which must be
      exactly four bytes. The crc is copied, never recomputed or compared. */
  function TryFrom(value: seq<uint8>): (r: Result<Chunk>)
    requires TryFromDoesNotPanic(value)
    ensures r.Ok? <==> |value| == HeaderLength(value) + 12
    ensures r.Err? ==> r.error == TryFromSliceError
    ensures r.Ok? ==> r.value.Length() == HeaderLength(value)
    ensures r.Ok? ==> r.value.Type().Bytes() == value[4..8]
    ensures r.Ok? ==> r.value.Data() == value[8..r.value.Length()]
    ensures r.Ok? ==> |r.value.Data()| + 8 == r.value.Length()
    ensures r.Ok? ==> r.value.Crc() == FromBigEndian(value[|value| - 4..])
  {
    // `value[0..4].try_into()?` cannot fail: the slice has four bytes
    var length := FromBigEndian(value[0..4]);
    var chunkType: Bytes4 := value[4..8];
    var message := value[8..length];
    var crcBytes :- TryIntoBytes4(value[8 + length..]);
    // `chunk_type.try_into()?` cannot fail either
    Ok(Chunk(length, ChunkTypes.New(chunkType), message, FromBigEndian(crcBytes)))
  }

  /** The buffer layout the tests build: big-endian payload length, type,
      payload, big-endian crc. */
  function Layout(typeBytes: Bytes4, message: seq<uint8>, crc: uint32): (value: seq<uint8>)
    requires |message| < 0x1_0000_0000
    ensures |value| == |message| + 12
    ensures value[..4] == ToBigEndian(|message|) && value[4..8] == typeBytes
    ensures value[8..8 + |message|] == message && value[8 + |message|..] == ToBigEndian(crc)
  {
    ToBigEndian(|message|) + typeBytes + message + ToBigEndian(crc)
  }

  /** Parsing a laid-out chunk keeps its length, type and crc (whatever the
      crc is), but yields only the first `length - 8` payload bytes. */
  lemma TryFromLayout(typeBytes: Bytes4, message: seq<uint8>, crc: uint32)
    requires 8 <= |message| < 0x1_0000_0000
    ensures TryFromDoesNotPanic(Layout(typeBytes, message, crc))
    ensures TryFrom(Layout(typeBytes, message, crc))
         == Ok(Chunk(|message|, ChunkType(typeBytes), message[..|message| - 8], crc))
  {
    var value := Layout(typeBytes, message, crc);
    assert HeaderLength(value) == |message|;
    assert value[8..|message|] == message[..|message| - 8];
  }

  /** A laid-out chunk whose payload is shorter than eight bytes makes the
      parser panic: `value[8..length]` has its start after its end. */
  lemma TryFromLayoutPanics(typeBytes: Bytes4, message: seq<uint8>, crc: uint32)
    requires |message| < 8
    ensures !TryFromDoesNotPanic(Layout(typeBytes, message, crc))
  {
  }

  /** Replacing the last four bytes of a parsable buffer by any others still
      parses, to the same chunk with only its crc changed: no checksum is
      ever verified. */
  lemma TryFromIgnoresStoredCrc(value: seq<uint8>, crcBytes: Bytes4)
    requires TryFromDoesNotPanic(value) && TryFrom(value).Ok?
    ensures TryFromDoesNotPanic(value[..|value| - 4] + crcBytes)
    ensures TryFrom(value[..|value| - 4] + crcBytes)
         == Ok(TryFrom(value).value.(crc := FromBigEndian(crcBytes)))
  {
    var value' := value[..|value| - 4] + crcBytes;
    assert value'[0..4] == value[0..4];
    assert value'[4..8] == value[4..8];
    assert value'[8..HeaderLength(value)] == value[8..HeaderLength(value)];
    assert value'[|value'| - 4..] == crcBytes;
  }
}
