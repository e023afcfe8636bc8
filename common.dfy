/** Shared value types of the model: bytes, 32-bit words, 32-byte hashes,
    the Option/Result wrappers, and the fixed-width integer encodings the
    wire formats use. */
module Common {

  type Byte = b: int | 0 <= b < 0x100
  type Uint32 = x: int | 0 <= x < 0x1_0000_0000
  type Int32 = x: int | -0x8000_0000 <= x < 0x8000_0000

  /** A 32-byte hash (`common.Uint256`, `chainhash.Hash`). */
  type Hash = s: seq<Byte> | |s| == 32 witness seq(32, _ => 0)

  const ZeroHash: Hash := seq(32, _ => 0)

  datatype Option<+T> = None | Some(value: T)

  datatype Result<+T, +E> = Ok(value: T) | Err(error: E)

  /** Little-endian reading of four bytes as an unsigned 32-bit word. */
  function Uint32FromLE(b: seq<Byte>): Uint32
    requires |b| == 4
  {
    b[0] as int + b[1] as int * 0x100 + b[2] as int * 0x1_0000 + b[3] as int * 0x100_0000
  }

  /** Little-endian encoding of an unsigned 32-bit word. */
  function Uint32ToLE(x: Uint32): (b: seq<Byte>)
    ensures |b| == 4
  {
    [x % 0x100, x / 0x100 % 0x100, x / 0x1_0000 % 0x100, x / 0x100_0000]
  }

  /** Big-endian reading of four bytes (`binary.BigEndian.Uint32`). */
  function Uint32FromBE(b: seq<Byte>): Uint32
    requires |b| == 4
  {
    b[0] as int * 0x100_0000 + b[1] as int * 0x1_0000 + b[2] as int * 0x100 + b[3] as int
  }

  /** Big-endian encoding (`binary.BigEndian.PutUint32`). */
  function Uint32ToBE(x: Uint32): (b: seq<Byte>)
    ensures |b| == 4
  {
    [x / 0x100_0000, x / 0x1_0000 % 0x100, x / 0x100 % 0x100, x % 0x100]
  }

  /** Two's-complement view of a 32-bit word as a signed `int32`. */
  function Int32FromBits(x: Uint32): Int32
  {
    if x < 0x8000_0000 then x else x - 0x1_0000_0000
  }

  function Int32ToBits(v: Int32): Uint32
  {
    if v < 0 then v + 0x1_0000_0000 else v
  }

  /** Splitting a word into base-256 digits and joining them back. */
  lemma Digits(x: Uint32)
    ensures x == x % 0x100 + (x / 0x100 % 0x100) * 0x100
               + (x / 0x1_0000 % 0x100) * 0x1_0000 + (x / 0x100_0000) * 0x100_0000
    ensures x / 0x100_0000 < 0x100
  {
    var d0, q0 := x % 0x100, x / 0x100;
    var d1, q1 := q0 % 0x100, q0 / 0x100;
    var d2, d3 := q1 % 0x100, q1 / 0x100;
    assert x == d0 + q0 * 0x100;
    assert q0 == d1 + q1 * 0x100;
    assert q1 == d2 + d3 * 0x100;
    assert q0 == x / 0x100;
    assert q1 == x / 0x1_0000;
    assert d3 == x / 0x100_0000;
  }

  lemma {:induction false} LERoundTrip(x: Uint32)
    ensures Uint32FromLE(Uint32ToLE(x)) == x
  {
    Digits(x);
  }

  lemma {:induction false} LEInverse(b: seq<Byte>)
    requires |b| == 4
    ensures Uint32ToLE(Uint32FromLE(b)) == b
  {
    var x := Uint32FromLE(b);
    DigitsUnique(x, b[0], b[1], b[2], b[3]);
  }

  lemma {:induction false} BERoundTrip(x: Uint32)
    ensures Uint32FromBE(Uint32ToBE(x)) == x
  {
    Digits(x);
  }

  lemma {:induction false} BEInverse(b: seq<Byte>)
    requires |b| == 4
    ensures Uint32ToBE(Uint32FromBE(b)) == b
  {
    var x := Uint32FromBE(b);
    DigitsUnique(x, b[3], b[2], b[1], b[0]);
  }

  /** The base-256 digits of a word are determined by the word. */
  lemma DigitsUnique(x: Uint32, d0: Byte, d1: Byte, d2: Byte, d3: Byte)
    requires x == d0 as int + d1 as int * 0x100 + d2 as int * 0x1_0000 + d3 as int * 0x100_0000
    ensures x % 0x100 == d0 && x / 0x100 % 0x100 == d1
    ensures x / 0x1_0000 % 0x100 == d2 && x / 0x100_0000 == d3
  {
    var q0: int := d1 + d2 * 0x100 + d3 * 0x1_0000;
    assert x == d0 + q0 * 0x100;
    assert x / 0x100 == q0 && x % 0x100 == d0;
    var q1: int := d2 + d3 * 0x100;
    assert q0 == d1 + q1 * 0x100;
    assert q0 / 0x100 == q1 && q0 % 0x100 == d1;
    assert x / 0x1_0000 == q1;
    assert q1 / 0x100 == d3 && q1 % 0x100 == d2;
    assert x / 0x100_0000 == d3;
  }

  lemma {:induction false} Int32RoundTrip(v: Int32)
    ensures Int32FromBits(Int32ToBits(v)) == v
  {
  }

  lemma {:induction false} Int32Inverse(x: Uint32)
    ensures Int32ToBits(Int32FromBits(x)) == x
  {
  }
}
