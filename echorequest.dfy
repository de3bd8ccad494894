/** The EchoRequest payload: one little-endian unsigned 64-bit timestamp. */
module EchoRequest {
  import opened Results
  import opened IntFormats
  import opened Common

  datatype EchoRequestMessage = EchoRequestMessage(timestamp: int)

  /** `EchoRequestMessage.serialize`: a timestamp outside 0 .. 2^64-1 raises. */
  function SerializeEchoRequest(m: EchoRequestMessage): (r: Result<Bytes>)
    ensures r.Ok? <==> 0 <= m.timestamp < Pow256(UInt64Size)
    ensures r.Ok? ==> |r.value| == UInt64Size
  {
    PackUInt(m.timestamp, UInt64Size)
  }

  /** `EchoRequestMessage.deserialize`. */
  function DecodeEchoRequest(d: Bytes, off: nat, v: Version): Result<Parsed<EchoRequestMessage>>
  {
    var ts :- DecodeUInt64(d, off, v);
    Ok(Parsed(EchoRequestMessage(ts.value), ts.next))
  }

  /** Decoding fails only on fewer than 8 remaining bytes and consumes 8. */
  lemma EchoRequestLayout(d: Bytes, off: nat, v: Version)
    ensures DecodeEchoRequest(d, off, v).Ok? <==> off + UInt64Size <= |d|
    ensures DecodeEchoRequest(d, off, v).Ok? ==>
      && DecodeEchoRequest(d, off, v).value.next == off + UInt64Size
      && DecodeEchoRequest(d, off, v).value.value.timestamp < Pow256(UInt64Size)
  {
    if off + UInt64Size <= |d| {
      UIntLEBound(d[off..off + UInt64Size]);
    }
  }

  /** `deserialize(serialize(m)) == m` for every timestamp `pack` accepts. */
  lemma EchoRequestRoundTrip(m: EchoRequestMessage, d: Bytes, off: nat, v: Version)
    requires SerializeEchoRequest(m).Ok?
    requires off + UInt64Size <= |d| && d[off..off + UInt64Size] == SerializeEchoRequest(m).value
    ensures DecodeEchoRequest(d, off, v) == Ok(Parsed(m, off + UInt64Size))
  {
  }

  /** `serialize(deserialize(b)) == b` for every 8-byte payload. */
  lemma EchoRequestBytesRoundTrip(d: Bytes, off: nat, v: Version)
    requires off + UInt64Size <= |d|
    ensures var m := DecodeEchoRequest(d, off, v).value.value;
      SerializeEchoRequest(m) == Ok(d[off..off + UInt64Size])
  {
    var w := d[off..off + UInt64Size];
    UIntLEBound(w);
    BytesRoundTrip(w);
  }

  method ReadEchoRequest(buf: ParseBuffer, v: Version) returns (r: Result<EchoRequestMessage>)
    modifies buf
    ensures Agrees(r, DecodeEchoRequest(buf.data, old(buf.offset), v), buf.offset)
  {
    var ts :- buf.UnpackUInt(UInt64Size);
    r := Ok(EchoRequestMessage(ts));
  }
}
