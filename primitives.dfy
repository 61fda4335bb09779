/** Machine integers, fixed-size byte arrays, big-endian conversion and the
    fallible conversions of the Rust standard library that the chunk codec
    relies on. */
module Primitives {

  /** Rust `u8`. */
  type uint8 = x: int | 0 <= x < 0x100

  /** Rust `u32`. */
  type uint32 = x: int | 0 <= x < 0x1_0000_0000

  /** Rust `i32`. */
  type int32 = x: int | -0x8000_0000 <= x < 0x8000_0000

  /** Rust `[u8; 4]`. */
  type Bytes4 = s: seq<uint8> | |s| == 4 witness [0, 0, 0, 0]

  /** The one error the chunk code can raise: a slice of the wrong length
      converted to a fixed-size array (`TryFromSliceError`, boxed into an
      `anyhow::Error` by `?`). */
  datatype Error = TryFromSliceError

  /** `anyhow::Result`; the members make it usable with `:-`, Dafny's `?`. */
  datatype Result<T> = Ok(value: T) | Err(error: Error) {
    predicate IsFailure() { Err? }

    function PropagateFailure<U>(): Result<U>
      requires Err?
    {
      Err(error)
    }

    function Extract(): T
      requires Ok?
    {
      value
    }
  }

  /** `<[u8; 4]>::try_from(&[u8])`: succeeds exactly on slices of length 4. */
  function TryIntoBytes4(s: seq<uint8>): (r: Result<Bytes4>)
    ensures r.Ok? <==> |s| == 4
    ensures r.Ok? ==> r.value == s
    ensures r.Err? ==> r.error == TryFromSliceError
  {
    if |s| == 4 then var a: Bytes4 := s; Ok(a) else Err(TryFromSliceError)
  }

  /** `u32::from_be_bytes`: byte `k` is digit `3 - k` of the result in base
      256, so the first byte is the most significant and the last the least. */
  function FromBigEndian(b: Bytes4): (x: uint32)
    ensures x / 0x100_0000 == b[0]
    ensures (x / 0x1_0000) % 0x100 == b[1]
    ensures (x / 0x100) % 0x100 == b[2]
    ensures x % 0x100 == b[3]
  {
    var q2 := (b[0] as int) * 0x100 + b[1];
    var q1 := q2 * 0x100 + b[2];
    DivModByte(q1, b[3]);
    DivModByte(q2, b[2]);
    DivModByte(b[0], b[1]);
    assert (q1 * 0x100 + b[3]) / 0x100_0000 == q2 / 0x100;
    q1 * 0x100 + b[3]
  }

  /** Division by 256 undoes `q * 256 + r` for a byte `r`. */
  lemma DivModByte(q: nat, r: uint8)
    ensures (q * 0x100 + r) / 0x100 == q && (q * 0x100 + r) % 0x100 == r
  {
  }

  /** `u32::to_be_bytes`: decoding the four bytes gives the number back. */
  function ToBigEndian(x: uint32): (b: Bytes4)
    ensures FromBigEndian(b) == x
  {
    var q1, q2 := x / 0x100, x / 0x1_0000;
    var b: Bytes4 := [q2 / 0x100, q2 % 0x100, q1 % 0x100, x % 0x100];
    assert q2 == q1 / 0x100;
    assert x == q1 * 0x100 + b[3];
    assert q1 == q2 * 0x100 + b[2];
    assert q2 == (b[0] as int) * 0x100 + b[1];
    b
  }

  /** Encoding what was decoded gives the bytes back. */
  lemma ToFromBigEndian(b: Bytes4)
    ensures ToBigEndian(FromBigEndian(b)) == b
  {
    var n := FromBigEndian(b);
    var q2 := (b[0] as int) * 0x100 + b[1];
    var q1 := q2 * 0x100 + b[2];
    assert n == q1 * 0x100 + b[3];
    DivModByte(q1, b[3]);
    DivModByte(q2, b[2]);
    DivModByte(b[0], b[1]);
    assert n / 0x1_0000 == q1 / 0x100;
    assert n / 0x100_0000 == q2 / 0x100;
  }

  /** `usize as u32`: keeps the low 32 bits. */
  function TruncateToU32(n: nat): (r: uint32)
    ensures n < 0x1_0000_0000 ==> r == n
    ensures (n - r) % 0x1_0000_0000 == 0
  {
    n % 0x1_0000_0000
  }
}
