/** CRC-32/ISO-HDLC, the checksum of section 5.5 of the PNG specification
    (ISO/IEC 15948): reflected polynomial 0xEDB88320, initial register
    0xFFFFFFFF, final xor 0xFFFFFFFF. This is the reference bit-at-a-time
    algorithm; `Digest` is the incremental digest of the `crc` crate, whose
    register is updated in place by each `update`. */
module Crc32 {
  import opened Primitives

  /** The reversed generator polynomial x^32 + x^26 + ... + 1. */
  const Poly: bv32 := 0xEDB8_8320
  const Init: bv32 := 0xFFFF_FFFF
  const XorOut: bv32 := 0xFFFF_FFFF

  /** One bit of polynomial division: shift right, and xor in the polynomial
      when the bit shifted out was set (written without a branch). */
  function Step(r: bv32): bv32 {
    (r >> 1) ^ (Poly & (0 - (r & 1)))
  }

  /** `Step` is the textbook conditional shift-and-xor. */
  lemma StepIsConditionalXor(r: bv32)
    ensures Step(r) == if r & 1 == 1 then (r >> 1) ^ Poly else r >> 1
  {
    if r & 1 == 1 {
      assert 0 - (r & 1) == 0xFFFF_FFFF;
    } else {
      assert r & 1 == 0;
    }
  }

  /** Feeds one byte, low bit first, into the register. */
  function UpdateByte(r: bv32, b: uint8): bv32 {
    var x := r ^ (b as bv32);
    Step(Step(Step(Step(Step(Step(Step(Step(x))))))))
  }

  /** The register after feeding `bytes`, in order, starting from `r`. */
  function Feed(r: bv32, bytes: seq<uint8>): bv32
    decreases |bytes|
  {
    if bytes == [] then r
    else UpdateByte(Feed(r, bytes[..|bytes| - 1]), bytes[|bytes| - 1])
  }

  /** The checksum a final register stands for. */
  function Finish(r: bv32): uint32 {
    (r ^ XorOut) as int
  }

  /** The CRC-32/ISO-HDLC checksum of `bytes`. */
  function Checksum(bytes: seq<uint8>): uint32 {
    Finish(Feed(Init, bytes))
  }

  /** Feeding one more byte is one more `UpdateByte`. */
  lemma FeedSnoc(r: bv32, a: seq<uint8>, b: uint8)
    ensures Feed(r, a + [b]) == UpdateByte(Feed(r, a), b)
  {
  }

  /** Feeding `a` then `b` is feeding `a + b`: a checksum may be computed in
      pieces, which is what a digest updated several times relies on. */
  lemma {:induction false} FeedAppend(r: bv32, a: seq<uint8>, b: seq<uint8>)
    ensures Feed(r, a + b) == Feed(Feed(r, a), b)
    decreases |b|
  {
    if b == [] {
      assert a + b == a;
    } else {
      var b', last := b[..|b| - 1], b[|b| - 1];
      assert b == b' + [last];
      assert a + b == (a + b') + [last];
      FeedSnoc(r, a + b', last);
      FeedAppend(r, a, b');
      FeedSnoc(Feed(r, a), b', last);
    }
  }

  /** The catalogue check value of CRC-32/ISO-HDLC: the checksum of the
      ASCII digits "123456789" is 0xCBF43926. */
  lemma CheckValue()
    ensures Checksum([0x31, 0x32, 0x33, 0x34, 0x35, 0x36, 0x37, 0x38, 0x39]) == 0xCBF4_3926
  {
    var a: seq<uint8> := [0x31, 0x32, 0x33, 0x34, 0x35];
    var b: seq<uint8> := [0x36, 0x37, 0x38, 0x39];
    FeedCheckDigits1To5();
    FeedCheckDigits6To9();
    FeedAppend(Init, a, b);
    assert a + b == [0x31, 0x32, 0x33, 0x34, 0x35, 0x36, 0x37, 0x38, 0x39];
  }

  /** Register values while feeding "12345". */
  lemma FeedCheckDigits1To5()
    ensures Feed(Init, [0x31, 0x32, 0x33, 0x34, 0x35]) == 0x340A_C5E3
  {
    var p: seq<uint8> := [];
    assert UpdateByte(0xFFFF_FFFF, 0x31) == 0x7C23_1048 by { assert (0x31 as bv32) == 0x31; }
    FeedSnoc(0xFFFF_FFFF, p, 0x31); p := p + [0x31];
    assert UpdateByte(0x7C23_1048, 0x32) == 0xB0AC_BB32 by { assert (0x32 as bv32) == 0x32; }
    FeedSnoc(0xFFFF_FFFF, p, 0x32); p := p + [0x32];
    assert UpdateByte(0xB0AC_BB32, 0x33) == 0x77B7_9C2D by { assert (0x33 as bv32) == 0x33; }
    FeedSnoc(0xFFFF_FFFF, p, 0x33); p := p + [0x33];
    assert UpdateByte(0x77B7_9C2D, 0x34) == 0x641C_1F5C by { assert (0x34 as bv32) == 0x34; }
    FeedSnoc(0xFFFF_FFFF, p, 0x34); p := p + [0x34];
    assert UpdateByte(0x641C_1F5C, 0x35) == 0x340A_C5E3 by { assert (0x35 as bv32) == 0x35; }
    FeedSnoc(0xFFFF_FFFF, p, 0x35); p := p + [0x35];
    assert p == [0x31, 0x32, 0x33, 0x34, 0x35];
  }

  /** Register values while feeding "6789" after "12345". */
  lemma FeedCheckDigits6To9()
    ensures Feed(0x340A_C5E3, [0x36, 0x37, 0x38, 0x39]) == 0x340B_C6D9
  {
    var p: seq<uint8> := [];
    assert UpdateByte(0x340A_C5E3, 0x36) == 0xF68D_2C9E by { assert (0x36 as bv32) == 0x36; }
    FeedSnoc(0x340A_C5E3, p, 0x36); p := p + [0x36];
    assert UpdateByte(0xF68D_2C9E, 0x37) == 0xAFFC_9660 by { assert (0x37 as bv32) == 0x37; }
    FeedSnoc(0x340A_C5E3, p, 0x37); p := p + [0x37];
    assert UpdateByte(0xAFFC_9660, 0x38) == 0x651F_2550 by { assert (0x38 as bv32) == 0x38; }
    FeedSnoc(0x340A_C5E3, p, 0x38); p := p + [0x38];
    assert UpdateByte(0x651F_2550, 0x39) == 0x340B_C6D9 by { assert (0x39 as bv32) == 0x39; }
    FeedSnoc(0x340A_C5E3, p, 0x39); p := p + [0x39];
    assert p == [0x36, 0x37, 0x38, 0x39];
  }

  /** `crc::Digest` for CRC-32/ISO-HDLC. The ghost field `fed` is every byte
      the digest has been given so far. */
  class Digest {
    var register: bv32
    ghost var fed: seq<uint8>

    ghost predicate Valid()
      reads this
    {
      register == Feed(Init, fed)
    }

    /** `Crc::<u32>::new(&CRC_32_ISO_HDLC).digest()`: nothing fed yet. */
    constructor ()
      ensures Valid() && fed == []
    {
      register := Init;
      fed := [];
    }

    /** `digest.update(bytes)`: feeds `bytes` after everything fed so far. */
    method Update(bytes: seq<uint8>)
      requires Valid()
      modifies this
      ensures Valid() && fed == old(fed) + bytes
    {
      var i := 0;
      while i < |bytes|
        invariant 0 <= i <= |bytes|
        invariant fed == old(fed) + bytes[..i]
        invariant register == Feed(Init, fed)
      {
        FeedSnoc(Init, fed, bytes[i]);
        register := UpdateByte(register, bytes[i]);
        fed := fed + [bytes[i]];
        assert bytes[..i + 1] == bytes[..i] + [bytes[i]];
        i := i + 1;
      }
      assert bytes[..i] == bytes;
    }

    /** `digest.finalize()`: the checksum of all bytes fed, in order. */
    method Finalize() returns (crc: uint32)
      requires Valid()
      ensures crc == Checksum(fed)
    {
      crc := Finish(register);
    }
  }
}
