# PNGMe chunk codec, modelled in Dafny

This project models the per-record layer of PNGMe, a tool that hides messages
in PNG-style chunked files. It covers two Rust files:

- `src/chunk_type.rs` defines `ChunkType`, a four-byte tag. It can be built from
  an `[i32; 4]` (each element truncated to a byte) or from a string (its UTF-8
  bytes, of which there must be exactly four).
- `src/chunk.rs` defines `Chunk`, a record `{data_length, chunk_type, chunk_data, crc}`.
  - `Chunk::new` builds one from a type and a payload. It computes the length
    and the CRC-32/ISO-HDLC checksum (section 5.5 of the PNG specification,
    ISO/IEC 15948) over the type bytes followed by the payload.
  - `TryFrom<&[u8]>` builds one by slicing a byte buffer.

The model follows the code as written, which is an unfinished draft:

- The parser takes the payload as `value[8..length]`, not `value[8..8 + length]`.
  So for the usual layout length ‖ type ‖ payload ‖ crc it keeps only the first
  `length - 8` payload bytes (`Chunks.TryFromLayout`).
- The parser copies the stored crc and never checks it (`Chunks.TryFromIgnoresStoredCrc`).
- There is no serializer, no text decoding of the payload, and no
  validity/critical/public/safe-to-copy predicate, so none is modelled.

Module layout:

- `Primitives` (primitives.dfy): `u8`/`u32`/`i32`, `[u8; 4]`, the `anyhow`
  result, big-endian conversion, and the slice-to-array `try_into`.
- `Utf8` (utf8.dfy): `str::as_bytes`, i.e. UTF-8 encoding of Dafny `char`s.
- `Crc32` (crc.dfy): the bitwise reference CRC-32/ISO-HDLC, plus `Digest`, a class
  whose register is updated in place by `Update` as the `crc` crate's
  digest is.
- `ChunkTypes` (chunk_type.dfy): the tag, its constructors, and the tests of
  `chunk_type.rs`.
- `Chunks` (chunk.dfy): the record, `New`, and the parser.
- `ChunkTests` (chunk_tests.dfy): the tests of `chunk.rs`, including the crc test
  vector 2882656334.

Panics become preconditions:

- `FromStr` requires the string's UTF-8 encoding to have exactly 4 bytes,
  because `unwrap` panics otherwise.
- `TryFrom` requires `Chunks.TryFromDoesNotPanic`, which holds when:
  - the buffer has at least 8 bytes;
  - the header length `L` is at least 8;
  - `8 + L` is at most the buffer length.

  Past those checks, the result is `Ok` exactly when 4 bytes follow offset `8 + L`.

The accessors `length()`, `chunk_type()`, `data()` and `crc()` are the member
functions `Length`, `Type`, `Data` and `Crc` of `Chunks.Chunk`. They return the
stored fields. `New`, `TryFrom` and the test lemmas state their results through
these accessors.

Facts about the code that the model keeps:

- The parser does not recompute or compare the checksum, and has no
  checksum-mismatch error.
- Out-of-range slices panic; no truncation error is returned.
- `from_str` checks neither that the characters are alphabetic nor their
  case. Only the byte count matters, and a wrong count is a panic, not an error.
- The test message "This is where your secret message will be!" is 42 bytes.

## Model

| member | source | states |
|---|---|---|
| `Primitives.TryIntoBytes4` | src/chunk.rs:62 | converting a slice to `[u8; 4]` succeeds exactly when the slice has four bytes, returns those bytes, and otherwise fails with the slice error |
| `Primitives.FromBigEndian` | src/chunk.rs:57 | `u32::from_be_bytes` makes byte `k` digit `3 - k` of the result in base 256: the first byte is the most significant, the last the least |
| `Primitives.ToBigEndian` | src/chunk.rs:86-91 | decoding the big-endian bytes that `to_be_bytes` gives for any `u32` returns the number |
| `Primitives.ToFromBigEndian` | src/chunk.rs:57 | `u32::from_be_bytes` loses nothing: re-encoding its result gives the four bytes back |
| `Primitives.TruncateToU32` | src/chunk.rs:26 | `len() as u32` is the payload length whenever that is below 2^32, and otherwise agrees with it modulo 2^32 |
| `Utf8.EncodeChar` | src/chunk_type.rs:40 | a character encodes to one to four bytes, to a single byte exactly when it is ASCII, and that byte is its code |
| `Utf8.Encode` | src/chunk_type.rs:40 | a string has at least as many bytes as characters and at most four times as many |
| `Utf8.EncodeAppend` | src/chunk_type.rs:40 | the bytes of a concatenation are the concatenation of the bytes |
| `Utf8.EncodeAscii` | src/chunk_type.rs:40 | ASCII text has one byte per character, equal to the character's code |
| `Utf8.EncodeLengthIsCharCountIffAscii` | src/chunk_type.rs:40 | a string has exactly as many bytes as characters if and only if it is ASCII |
| `Crc32.StepIsConditionalXor` | src/chunk.rs:2 | each bit step of CRC-32/ISO-HDLC shifts right and xors in 0xEDB88320 exactly when the bit shifted out is set |
| `Crc32.FeedAppend` | src/chunk.rs:20-23 | feeding two byte strings one after the other leaves the register as feeding their concatenation does |
| `Crc32.CheckValue` | src/chunk.rs:2 | the checksum of "123456789" is 0xCBF43926, the catalogue check value of CRC-32/ISO-HDLC |
| `Crc32.Digest.constructor` | src/chunk.rs:19-20 | a fresh digest has been fed nothing and holds the initial register |
| `Crc32.Digest.Update` | src/chunk.rs:21-22 | an update appends its bytes to everything fed so far and keeps the register equal to the reference register of all bytes fed |
| `Crc32.Digest.Finalize` | src/chunk.rs:23 | finalizing gives the CRC-32/ISO-HDLC checksum of all bytes fed, in order |
| `ChunkTypes.ChunkType.Bytes` | src/chunk_type.rs:18-20 | `bytes()` returns the tag's four stored bytes |
| `ChunkTypes.New` | src/chunk.rs:67 | `ChunkType::new` wraps the four bytes it is given unchanged |
| `ChunkTypes.AsU8` | src/chunk_type.rs:29 | `i as u8` gives a byte congruent to `i` modulo 256, and leaves values that already are bytes unchanged |
| `ChunkTypes.AsU8IsLowByteOfTwosComplement` | src/chunk_type.rs:29 | that byte is the low byte of the 32-bit two's complement word of `i` |
| `ChunkTypes.TryFromI32s` | src/chunk_type.rs:24-33 | the `[i32; 4]` conversion never fails, and byte `k` of the tag is element `k` truncated to a byte |
| `ChunkTypes.TryFromByteValues` | src/chunk_type.rs:29 | four values in 0..255 become exactly those four bytes, in order |
| `ChunkTypes.FromStr` | src/chunk_type.rs:38-43 | a string with exactly four UTF-8 bytes always gives `Ok` with exactly those bytes in order; no character check, no `Err` |
| `ChunkTypes.FromStrAgreesWithTryFrom` | src/chunk_type.rs:61-66 | for four ASCII characters, parsing the text gives the same tag as converting the character codes |
| `ChunkTypes.FromStrAcceptsFourAsciiChars` | src/chunk_type.rs:40-42 | a four-character string is accepted if and only if it is ASCII |
| `ChunkTypes.EqualityIsBytewise` | src/chunk_type.rs:11-14 | two tags are equal if and only if their four bytes agree position by position |
| `ChunkTypes.EncodeRuSt` | src/chunk_type.rs:64 | the bytes of "RuSt" are 82, 117, 83, 116 |
| `ChunkTypes.TestChunkTypeFromBytes` | src/chunk_type.rs:53-59 | `try_from([82, 117, 83, 116])` succeeds and its `bytes()` are `[82, 117, 83, 116]` |
| `ChunkTypes.TestChunkTypeFromStr` | src/chunk_type.rs:61-66 | `from_str("RuSt")` equals `try_from([82, 117, 83, 116])` |
| `Chunks.Chunk.Length` | src/chunk.rs:33-35 | `length()` returns the stored `data_length` |
| `Chunks.Chunk.Type` | src/chunk.rs:36-38 | `chunk_type()` returns a copy of the stored tag, equal to it by value |
| `Chunks.Chunk.Data` | src/chunk.rs:39-41 | `data()` returns the stored payload |
| `Chunks.Chunk.Crc` | src/chunk.rs:42-44 | `crc()` returns the stored checksum |
| `Chunks.New` | src/chunk.rs:18-31 | `length()` is the payload's byte count as a `u32`; `chunk_type()` and `data()` are the given type and payload; `crc()` is CRC-32/ISO-HDLC of the type's bytes followed by the payload |
| `Chunks.TryFrom` | src/chunk.rs:53-71 | for any buffer the parser does not panic on: `Ok` exactly when four bytes follow offset 8 + length, else the slice error. The length is the header's big-endian u32, the type is bytes 4..8, the payload is bytes 8..length (so eight bytes shorter than the length) and the crc is the last four bytes big-endian |
| `Chunks.Layout` | src/chunk.rs:86-93 | the test buffer is the big-endian length, the type, the payload and the big-endian crc, each where a reader expects it |
| `Chunks.TryFromLayout` | src/chunk.rs:57-70 | a laid-out chunk with a payload of at least 8 bytes parses without panicking. Its length, type and crc (any crc) survive, but its payload loses its last 8 bytes |
| `Chunks.TryFromLayoutPanics` | src/chunk.rs:60 | a laid-out chunk with a payload shorter than 8 bytes makes the parser panic |
| `Chunks.TryFromIgnoresStoredCrc` | src/chunk.rs:62-69 | replacing the stored crc of a parsable buffer by any four bytes still parses, to the same chunk with only the crc changed |
| `ChunkTests.EncodeTestText` | src/chunk.rs:83 | the test message text encodes to the 42 bytes used by the tests |
| `ChunkTests.TestVectorChecksum` | src/chunk.rs:100-106 | CRC-32/ISO-HDLC of "RuSt" followed by the 42-byte message is 2882656334 |
| `ChunkTests.TestNewChunk` | src/chunk.rs:100-106 | `Chunk::new(from_str("RuSt"), message)` has length 42 and crc 2882656334 |
| `ChunkTests.TestTryFromTestingChunk` | src/chunk.rs:80-119 | the testing buffer parses without panicking, with length 42 and type equal to `from_str("RuSt")`; its payload is only the first 34 message bytes |

## Left out

- `Chunk::data_as_string` is `todo!()`: it always panics and takes no receiver, so no caller can use it.
- `Display` rendering: `test_chunk_type` compares `to_string()` with "RuSt", but src/chunk_type.rs has no `Display` implementation. The model states instead that the parsed type equals `from_str("RuSt")`.
- The `println!` calls in the tests print to the console, which is I/O.
- The `crc` crate is not part of this model. The model computes CRC-32/ISO-HDLC with the bitwise reference algorithm instead; `Crc::new` and `digest()` are folded into the `Digest` constructor.
- `8 + length as usize` cannot overflow on a 64-bit target, where `usize` holds every `u32` plus 8, so no wrap-around is modelled there.
- Panics are preconditions rather than outcomes (`FromStr`, `TryFrom`).
- `src/args.rs` (command-line handling), `src/lib.rs` (file I/O, command dispatch, printing), `src/commands.rs` (plain data holders) and `src/main.rs` (entry point) hold no chunk logic.
- The container module (`png`) that `src/lib.rs` uses is not part of this model. Container parsing, append, lookup, removal and serialization are therefore absent.
