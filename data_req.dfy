/** The `DataReq` message of the P2P layer (command "getdata"): one
    inventory-type byte followed by a 32-byte hash.  It is written to a
    growing byte sink and read from a byte source with a read cursor, the
    zero-copy sink and source of the node's common package. */
module P2pDataReq {
  import opened Common

  /** The command name carried by the message header. */
  const GetDataType: string := "getdata"

  /** The size of a serialised DataReq: the type byte and the hash. */
  const DataReqSize: nat := 33

  datatype CodecError = ErrUnexpectedEOF

  // ---------------------------------------------------------------------
  // The byte sink
  // ---------------------------------------------------------------------

  /** An append-only byte buffer. */
  class ZeroCopySink {
    var bytes: seq<Byte>

    constructor ()
      ensures bytes == []
    {
      bytes := [];
    }

    method WriteByte(b: Byte)
      modifies this
      ensures bytes == old(bytes) + [b]
    {
      bytes := bytes + [b];
    }

    method WriteHash(h: Hash)
      modifies this
      ensures bytes == old(bytes) + h
    {
      bytes := bytes + h;
    }
  }

  // ---------------------------------------------------------------------
  // The byte source
  // ---------------------------------------------------------------------

  /** The outcome of one read at cursor position `off` of `data`: the value
      read, whether the input ran out, and the cursor afterwards. */
  datatype Read<+T> = Read(value: T, eof: bool, off: nat)

  /** NextByte: the byte under the cursor, or 0 and end-of-input with the
      cursor left where it was. */
  function ReadByte(data: seq<Byte>, off: nat): (r: Read<Byte>)
    requires off <= |data|
    ensures r.off <= |data|
    ensures r.eof <==> off == |data|
    ensures !r.eof ==> r.value == data[off] && r.off == off + 1
    ensures r.eof ==> r.value == 0 && r.off == off
  {
    if off >= |data| then Read(0, true, off) else Read(data[off], false, off + 1)
  }

  /** NextBytes(n): the next `n` bytes; when fewer remain, what remains and
      end-of-input, with the cursor at the end. */
  function ReadBytes(data: seq<Byte>, off: nat, n: nat): (r: Read<seq<Byte>>)
    requires off <= |data|
    ensures off <= r.off <= |data|
    ensures r.eof <==> off + n > |data|
    ensures r.value == data[off..r.off]
    ensures !r.eof ==> |r.value| == n && r.off == off + n
    ensures r.eof ==> r.off == |data| && r.value == data[off..]
  {
    if off + n > |data| then Read(data[off..], true, |data|) else Read(data[off..off + n], false, off + n)
  }

  /** NextHash: the next 32 bytes as a hash, or the zero hash and
      end-of-input when fewer remain. */
  function ReadHash(data: seq<Byte>, off: nat): (r: Read<Hash>)
    requires off <= |data|
    ensures r.off <= |data|
    ensures r.eof <==> off + 32 > |data|
    ensures !r.eof ==> r.value == data[off..off + 32] && r.off == off + 32
    ensures r.eof ==> r.value == seq(32, _ => 0) && r.off == |data|
  {
    var d := ReadBytes(data, off, 32);
    var zero: Hash := seq(32, _ => 0);
    if d.eof then Read(zero, true, d.off) else Read(d.value, false, d.off)
  }

  /** A read-only byte sequence with a cursor. */
  class ZeroCopySource {
    const data: seq<Byte>
    var off: nat

    ghost predicate Valid()
      reads this
    {
      off <= |data|
    }

    constructor (b: seq<Byte>)
      ensures data == b && off == 0 && Valid()
    {
      data := b;
      off := 0;
    }

    method NextByte() returns (b: Byte, eof: bool)
      requires Valid()
      modifies this
      ensures Valid()
      ensures Read(b, eof, off) == ReadByte(data, old(off))
    {
      if off >= |data| {
        return 0, true;
      }
      b := data[off];
      off := off + 1;
      eof := false;
    }

    method NextBytes(n: nat) returns (d: seq<Byte>, eof: bool)
      requires Valid()
      modifies this
      ensures Valid()
      ensures Read(d, eof, off) == ReadBytes(data, old(off), n)
    {
      var end := off + n;
      eof := false;
      if end > |data| {
        end := |data|;
        eof := true;
      }
      d := data[off..end];
      off := end;
    }

    method NextHash() returns (h: Hash, eof: bool)
      requires Valid()
      modifies this
      ensures Valid()
      ensures Read(h, eof, off) == ReadHash(data, old(off))
    {
      var d;
      d, eof := NextBytes(32);
      if eof {
        return ZeroHash, true;
      }
      h := d;
    }
  }

  // ---------------------------------------------------------------------
  // The message
  // ---------------------------------------------------------------------

  /** The serialised form: the type byte, then the hash. */
  function EncodeDataReq(dataType: Byte, hash: Hash): (b: seq<Byte>)
    ensures |b| == DataReqSize
    ensures b[0] == dataType && b[1..] == hash
  {
    [dataType] + hash
  }

  /** What Deserialization reads from `data` at `off`: the type byte, then
      the hash from where the byte read left the cursor.  Only the hash read
      decides end-of-input. */
  function DecodeDataReq(data: seq<Byte>, off: nat): (r: Read<(Byte, Hash)>)
    requires off <= |data|
    ensures r.off <= |data|
  {
    var t := ReadByte(data, off);
    var h := ReadHash(data, t.off);
    Read((t.value, h.value), h.eof, h.off)
  }

  class DataReq {
    var dataType: Byte
    var hash: Hash

    constructor (t: Byte, h: Hash)
      ensures dataType == t && hash == h
    {
      dataType := t;
      hash := h;
    }

    /** Appends the type byte and the hash to the sink; it never fails. */
    method Serialization(sink: ZeroCopySink) returns (err: Option<CodecError>)
      modifies sink
      ensures sink.bytes == old(sink.bytes) + EncodeDataReq(dataType, hash)
      ensures err == None
    {
      sink.WriteByte(dataType);
      sink.WriteHash(hash);
      assert [dataType] + hash == EncodeDataReq(dataType, hash);
      return None;
    }

    method CmdType() returns (c: string)
      ensures c == GetDataType
    {
      return GetDataType;
    }

    /** Reads the type byte and the hash into the fields, whatever the byte
        read reported; fails with ErrUnexpectedEOF when the hash read runs out. */
    method Deserialization(source: ZeroCopySource) returns (err: Option<CodecError>)
      requires source.Valid()
      modifies this, source
      ensures source.Valid()
      ensures var r := DecodeDataReq(source.data, old(source.off));
        && dataType == r.value.0 && hash == r.value.1 && source.off == r.off
        && err == (if r.eof then Some(ErrUnexpectedEOF) else None)
    {
      var ty, eof := source.NextByte();
      dataType := ty;
      hash, eof := source.NextHash();
      if eof {
        return Some(ErrUnexpectedEOF);
      }
      return None;
    }
  }

  // ---------------------------------------------------------------------
  // Properties
  // ---------------------------------------------------------------------

  /** Reading the serialised form back, wherever it sits in the input,
      recovers the type byte and the hash and moves the cursor past it.
      Any byte value is accepted as the type. */
  lemma {:induction false} DecodeEncode(pre: seq<Byte>, t: Byte, h: Hash, rest: seq<Byte>)
    ensures var data := pre + EncodeDataReq(t, h) + rest;
      DecodeDataReq(data, |pre|) == Read((t, h), false, |pre| + DataReqSize)
  {
    var data := pre + EncodeDataReq(t, h) + rest;
    assert data[|pre|] == t;
    assert data[|pre| + 1..|pre| + 1 + 32] == h;
  }

  /** Deserialization fails exactly when fewer than 33 bytes remain. */
  lemma ShortInputFails(data: seq<Byte>, off: nat)
    requires off <= |data|
    ensures DecodeDataReq(data, off).eof <==> |data| - off < DataReqSize
  {
  }

  /** On the error path the fields still change: the type is the byte read,
      or 0 when there was none, the hash is the zero hash, and the cursor is
      at the end of the input. */
  lemma FailedFields(data: seq<Byte>, off: nat)
    requires off <= |data| && |data| - off < DataReqSize
    ensures var r := DecodeDataReq(data, off);
      && r.value.0 == (if off < |data| then data[off] else 0)
      && r.value.1 == ZeroHash && r.off == |data|
  {
  }

  /** The end-of-input flag of the type byte is overwritten by that of the
      hash read and is never checked itself: whenever the byte read runs out
      the hash read does too, so no short input is accepted. */
  lemma ByteEofIsSubsumed(data: seq<Byte>, off: nat)
    requires off <= |data|
    ensures ReadByte(data, off).eof ==> DecodeDataReq(data, off).eof
    ensures DecodeDataReq(data, off).eof == ReadHash(data, ReadByte(data, off).off).eof
  {
  }

  /** A DataReq serialised into a fresh sink and deserialised from a source
      over the sink's bytes gives back its type and hash, without error. */
  method RoundTrip(t: Byte, h: Hash) returns (t': Byte, h': Hash, err: Option<CodecError>, size: nat)
    ensures t' == t && h' == h && err == None && size == DataReqSize
  {
    var req := new DataReq(t, h);
    var sink := new ZeroCopySink();
    var e := req.Serialization(sink);
    size := |sink.bytes|;
    var source := new ZeroCopySource(sink.bytes);
    DecodeEncode([], t, h, []);
    assert [] + EncodeDataReq(t, h) + [] == sink.bytes;
    var back := new DataReq(0, ZeroHash);
    err := back.Deserialization(source);
    t', h' := back.dataType, back.hash;
  }

  /** Deserialising fewer than 33 bytes fails with ErrUnexpectedEOF. */
  method ShortRead(b: seq<Byte>) returns (err: Option<CodecError>)
    requires |b| < DataReqSize
    ensures err == Some(ErrUnexpectedEOF)
  {
    var source := new ZeroCopySource(b);
    var req := new DataReq(0, ZeroHash);
    ShortInputFails(b, 0);
    err := req.Deserialization(source);
  }
}
