/** The RequestModelDefinitions message: an empty payload. */
module RequestModelDefinitions {
  import opened Results
  import opened IntFormats
  import opened Common

  datatype RequestModelDefinitionsMessage = RequestModelDefinitionsMessage

  /** `serialize` returns no bytes. */
  function SerializeRequestModelDefinitions(m: RequestModelDefinitionsMessage): Bytes
  {
    []
  }

  /** `deserialize` never reads the buffer, so it cannot fail and consumes nothing. */
  function DecodeRequestModelDefinitions(d: Bytes, off: nat, v: Version): Result<Parsed<RequestModelDefinitionsMessage>>
  {
    Ok(Parsed(RequestModelDefinitionsMessage, off))
  }

  /** The message has no wire form: it serialises to nothing, and decoding
      succeeds on any buffer, even an exhausted one, without moving the cursor. */
  lemma RequestModelDefinitionsLayout(m: RequestModelDefinitionsMessage, d: Bytes, off: nat, v: Version)
    ensures |SerializeRequestModelDefinitions(m)| == 0
    ensures DecodeRequestModelDefinitions(d, off, v).Ok?
    ensures DecodeRequestModelDefinitions(d, off, v).value.next == off
  {
  }

  /** The result does not depend on the buffer contents or the version. */
  lemma RequestModelDefinitionsIgnoresInput(d: Bytes, e: Bytes, off: nat, v: Version, w: Version)
    ensures DecodeRequestModelDefinitions(d, off, v) == DecodeRequestModelDefinitions(e, off, w)
  {
  }

  /** Decoding the (empty) serialisation gives the message back. */
  lemma RequestModelDefinitionsRoundTrip(m: RequestModelDefinitionsMessage, d: Bytes, off: nat, v: Version)
    requires off <= |d|
    requires d[off..off + |SerializeRequestModelDefinitions(m)|] == SerializeRequestModelDefinitions(m)
    ensures DecodeRequestModelDefinitions(d, off, v) == Ok(Parsed(m, off + |SerializeRequestModelDefinitions(m)|))
  {
  }

  method ReadRequestModelDefinitions(buf: ParseBuffer, v: Version) returns (r: Result<RequestModelDefinitionsMessage>)
    modifies buf
    ensures Agrees(r, DecodeRequestModelDefinitions(buf.data, old(buf.offset), v), buf.offset)
  {
    r := Ok(RequestModelDefinitionsMessage);
  }
}
