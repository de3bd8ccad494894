/** The EchoResponse payload: the request's timestamp echoed back, then the
    server's receive timestamp, both little-endian unsigned 64-bit. */
module EchoResponse {
  import opened Results
  import opened IntFormats
  import opened Common

  datatype EchoResponseMessage = EchoResponseMessage(requestTimestamp: int, receivedTimestamp: int)

  /** `EchoResponseMessage.serialize`: the two packed timestamps in field order. */
  function SerializeEchoResponse(m: EchoResponseMessage): (r: Result<Bytes>)
    ensures r.Ok? <==> 0 <= m.requestTimestamp < Pow256(UInt64Size) && 0 <= m.receivedTimestamp < Pow256(UInt64Size)
    ensures r.Ok? ==> |r.value| == 2 * UInt64Size
  {
    var request :- PackUInt(m.requestTimestamp, UInt64Size);
    var received :- PackUInt(m.receivedTimestamp, UInt64Size);
    Ok(request + received)
  }

  /** `EchoResponseMessage.deserialize`. */
  function DecodeEchoResponse(d: Bytes, off: nat, v: Version): Result<Parsed<EchoResponseMessage>>
  {
    var request :- DecodeUInt64(d, off, v);
    var received :- DecodeUInt64(d, request.next, v);
    Ok(Parsed(EchoResponseMessage(request.value, received.value), received.next))
  }

  /** Decoding fails only on fewer than 16 remaining bytes and consumes 16; the
      first eight bytes are the request timestamp and the last eight the receive
      timestamp. */
  lemma EchoResponseLayout(d: Bytes, off: nat, v: Version)
    ensures DecodeEchoResponse(d, off, v).Ok? <==> off + 2 * UInt64Size <= |d|
    ensures DecodeEchoResponse(d, off, v).Ok? ==>
      var p := DecodeEchoResponse(d, off, v).value;
      && p.next == off + 2 * UInt64Size
      && p.value.requestTimestamp == UIntLE(d[off..off + 8])
      && p.value.receivedTimestamp == UIntLE(d[off + 8..off + 16])
  {
  }

  /** Each half of the payload decides one field only: changing the receive
      bytes leaves the request timestamp as it was, and the other way round. */
  lemma EchoResponseFieldsIndependent(d: Bytes, e: Bytes, off: nat, v: Version)
    requires off + 16 <= |d| && off + 16 <= |e|
    ensures d[off..off + 8] == e[off..off + 8] ==>
      DecodeEchoResponse(d, off, v).value.value.requestTimestamp == DecodeEchoResponse(e, off, v).value.value.requestTimestamp
    ensures d[off + 8..off + 16] == e[off + 8..off + 16] ==>
      DecodeEchoResponse(d, off, v).value.value.receivedTimestamp == DecodeEchoResponse(e, off, v).value.value.receivedTimestamp
  {
  }

  /** `deserialize(serialize(m)) == m` for every pair of timestamps `pack` accepts. */
  lemma EchoResponseRoundTrip(m: EchoResponseMessage, d: Bytes, off: nat, v: Version)
    requires SerializeEchoResponse(m).Ok?
    requires off + 16 <= |d| && d[off..off + 16] == SerializeEchoResponse(m).value
    ensures DecodeEchoResponse(d, off, v) == Ok(Parsed(m, off + 16))
  {
    var s := SerializeEchoResponse(m).value;
    SubSlice(d, off, s, 0, 8);
    SubSlice(d, off, s, 8, 16);
    assert s[..8] == PackUInt(m.requestTimestamp, UInt64Size).value;
    assert s[8..16] == PackUInt(m.receivedTimestamp, UInt64Size).value;
  }

  /** `serialize(deserialize(b)) == b` for every 16-byte payload. */
  lemma EchoResponseBytesRoundTrip(d: Bytes, off: nat, v: Version)
    requires off + 16 <= |d|
    ensures var m := DecodeEchoResponse(d, off, v).value.value;
      SerializeEchoResponse(m) == Ok(d[off..off + 16])
  {
    var w1, w2 := d[off..off + 8], d[off + 8..off + 16];
    UIntLEBound(w1);
    UIntLEBound(w2);
    BytesRoundTrip(w1);
    BytesRoundTrip(w2);
    assert d[off..off + 16] == w1 + w2;
  }

  method ReadEchoResponse(buf: ParseBuffer, v: Version) returns (r: Result<EchoResponseMessage>)
    modifies buf
    ensures Agrees(r, DecodeEchoResponse(buf.data, old(buf.offset), v), buf.offset)
  {
    var request :- buf.UnpackUInt(UInt64Size);
    var received :- buf.UnpackUInt(UInt64Size);
    r := Ok(EchoResponseMessage(request, received));
  }
}
