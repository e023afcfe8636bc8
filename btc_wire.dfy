/** The 80-byte Bitcoin block header of the wire protocol: version (int32),
    previous-block hash, merkle root, timestamp, compact difficulty `bits`
    and nonce, integers little-endian.  Decoding reads the first 80 bytes of
    its input and fails only when fewer are available; any value of any field
    is accepted. */
module BtcWire {
  import opened Common

  const HeaderSize: nat := 80

  datatype BlockHeader = BlockHeader(
    version: Int32,
    prevBlock: Hash,
    merkleRoot: Hash,
    timestamp: Uint32,
    bits: Uint32,
    nonce: Uint32)

  function EncodeHeader(h: BlockHeader): (b: seq<Byte>)
    ensures |b| == HeaderSize
  {
    Uint32ToLE(Int32ToBits(h.version)) + h.prevBlock + h.merkleRoot
      + Uint32ToLE(h.timestamp) + Uint32ToLE(h.bits) + Uint32ToLE(h.nonce)
  }

  /** Reads one header from the front of `b`; bytes after the 80th are ignored. */
  function DecodeHeader(b: seq<Byte>): (r: Option<BlockHeader>)
    ensures r.Some? <==> |b| >= HeaderSize
  {
    if |b| < HeaderSize then None
    else Some(BlockHeader(
      Int32FromBits(Uint32FromLE(b[0..4])),
      b[4..36],
      b[36..68],
      Uint32FromLE(b[68..72]),
      Uint32FromLE(b[72..76]),
      Uint32FromLE(b[76..80])))
  }

  /** Decoding an encoded header gives it back, whatever follows it. */
  lemma {:induction false} DecodeEncode(h: BlockHeader, rest: seq<Byte>)
    ensures DecodeHeader(EncodeHeader(h) + rest) == Some(h)
  {
    var b := EncodeHeader(h) + rest;
    assert b[0..4] == Uint32ToLE(Int32ToBits(h.version));
    assert b[4..36] == h.prevBlock;
    assert b[36..68] == h.merkleRoot;
    assert b[68..72] == Uint32ToLE(h.timestamp);
    assert b[72..76] == Uint32ToLE(h.bits);
    assert b[76..80] == Uint32ToLE(h.nonce);
    LERoundTrip(Int32ToBits(h.version));
    Int32RoundTrip(h.version);
    LERoundTrip(h.timestamp);
    LERoundTrip(h.bits);
    LERoundTrip(h.nonce);
  }

  /** The other direction: re-encoding a decoded header gives the 80 bytes it was read from. */
  lemma {:induction false} EncodeDecode(b: seq<Byte>)
    requires |b| >= HeaderSize
    ensures EncodeHeader(DecodeHeader(b).value) == b[..HeaderSize]
  {
    var h := DecodeHeader(b).value;
    LEInverse(b[0..4]);
    Int32Inverse(Uint32FromLE(b[0..4]));
    LEInverse(b[68..72]);
    LEInverse(b[72..76]);
    LEInverse(b[76..80]);
    assert b[..HeaderSize] == b[0..4] + b[4..36] + b[36..68] + b[68..72] + b[72..76] + b[76..80];
  }
}
