/** The Connect payload: a 256-byte NUL-padded string window followed by two
    protocol versions. */
module Connect {
  import opened Results
  import opened IntFormats
  import opened Common

  datatype ConnectMessage = ConnectMessage(payload: Bytes, version1: Version, version2: Version)

  const PayloadSize: nat := 256

  /** The attribute defaults: an empty payload and both versions 3. */
  function DefaultConnect(): (m: ConnectMessage)
    ensures SerializeConnect(m).Ok?
  {
    ConnectMessage([], MakeVersion(3), MakeVersion(3))
  }

  /** `b'\0' * n`: empty when `n` is not positive. */
  function Nuls(n: int): (r: Bytes)
    ensures |r| == if n <= 0 then 0 else n
    ensures forall i :: 0 <= i < |r| ==> r[i] == 0
  {
    if n <= 0 then [] else [0] + Nuls(n - 1)
  }

  /** `ConnectMessage.serialize`; a version component outside 0..255 raises. */
  function SerializeConnect(m: ConnectMessage): Result<Bytes>
  {
    var v1 :- SerializeVersion(m.version1);
    var v2 :- SerializeVersion(m.version2);
    Ok(m.payload + Nuls(PayloadSize - |m.payload|) + v1 + v2)
  }

  /** `ConnectMessage.deserialize`. */
  function DecodeConnect(d: Bytes, off: nat, v: Version): Result<Parsed<ConnectMessage>>
  {
    var payload := CStr(Current, d, off, PayloadSize);
    var v1 :- DecodeVersion(d, payload.next, v);
    var v2 :- DecodeVersion(d, v1.next, v);
    Ok(Parsed(ConnectMessage(payload.value, v1.value, v2.value), v2.next))
  }

  // ------------------------------------------------------------ properties

  /** What `serialize` emits: the payload, NULs up to 256 bytes (none for a longer
      payload), then the two versions; 264 bytes for a payload of at most 256. */
  lemma SerializedConnectLayout(m: ConnectMessage)
    requires SerializeConnect(m).Ok?
    ensures var s := SerializeConnect(m).value;
      var p := |m.payload|;
      var pad := if p <= PayloadSize then PayloadSize else p;
      && |s| == pad + 8
      && (p <= PayloadSize ==> |s| == 264)
      && s[..p] == m.payload
      && (forall i :: p <= i < pad ==> s[i] == 0)
      && SerializeVersion(m.version1) == Ok(s[pad..pad + 4])
      && SerializeVersion(m.version2) == Ok(s[pad + 4..])
  {
    var s := SerializeConnect(m).value;
    var p := |m.payload|;
    var pad := if p <= PayloadSize then PayloadSize else p;
    var nuls := Nuls(PayloadSize - p);
    var v1, v2 := SerializeVersion(m.version1).value, SerializeVersion(m.version2).value;
    assert s == m.payload + nuls + v1 + v2;
    assert s[..p] == m.payload;
    assert forall i :: p <= i < pad ==> s[i] == nuls[i - p];
    assert s[pad..pad + 4] == v1;
    assert s[pad + 4..] == v2;
  }

  /** `deserialize` fails only on a buffer shorter than 264 bytes and consumes
      exactly 264. */
  lemma ConnectLayout(d: Bytes, off: nat, v: Version)
    ensures DecodeConnect(d, off, v).Ok? <==> off + 264 <= |d|
    ensures DecodeConnect(d, off, v).Ok? ==> DecodeConnect(d, off, v).value.next == off + 264
  {
  }

  /** The defaults serialise to 256 NULs and twice the bytes 3, 0, 0, 0. */
  lemma DefaultConnectBytes()
    ensures SerializeConnect(DefaultConnect()) == Ok(Nuls(256) + [3, 0, 0, 0] + [3, 0, 0, 0])
  {
    assert SerializeVersion(MakeVersion(3)) == Ok([3, 0, 0, 0]);
    assert [] + Nuls(PayloadSize - 0) == Nuls(256);
  }

  /** The window holding a serialised payload reads back as the payload. */
  lemma PayloadWindow(p: Bytes, w: Bytes)
    requires NoNul(p) && |p| <= PayloadSize
    requires w == p + Nuls(PayloadSize - |p|)
    ensures BeforeNul(w) == p
  {
    if |p| < PayloadSize {
      var rest := Nuls(PayloadSize - |p| - 1);
      assert w == p + [0] + rest;
      BeforeNulOfTerminated(p, rest);
    } else {
      assert w == p;
      BeforeNulOfNoNul(p);
    }
  }

  /** `deserialize(serialize(m)) == m` for a NUL-free payload of at most 256
      bytes, whatever follows it in the buffer. */
  lemma ConnectRoundTrip(m: ConnectMessage, d: Bytes, off: nat, v: Version)
    requires NoNul(m.payload) && |m.payload| <= PayloadSize
    requires SerializeConnect(m).Ok?
    requires off + 264 <= |d| && d[off..off + 264] == SerializeConnect(m).value
    ensures DecodeConnect(d, off, v) == Ok(Parsed(m, off + 264))
  {
    var s := SerializeConnect(m).value;
    SerializedConnectLayout(m);
    SubSlice(d, off, s, 0, PayloadSize);
    SubSlice(d, off, s, PayloadSize, PayloadSize + 4);
    SubSlice(d, off, s, PayloadSize + 4, 264);
    assert s[..PayloadSize] == m.payload + Nuls(PayloadSize - |m.payload|);
    PayloadWindow(m.payload, d[off..off + PayloadSize]);
    VersionRoundTrip(m.version1, d, off + PayloadSize);
    VersionRoundTrip(m.version2, d, off + PayloadSize + 4);
  }

  // ------------------------------------------------------------ the reader

  method ReadConnect(buf: ParseBuffer, v: Version) returns (r: Result<ConnectMessage>)
    requires buf.dialect == Current
    modifies buf
    ensures Agrees(r, DecodeConnect(buf.data, old(buf.offset), v), buf.offset)
  {
    var payload := buf.UnpackCstr(PayloadSize);
    var v1 :- ReadVersion(buf, v);
    var v2 :- ReadVersion(buf, v);
    r := Ok(ConnectMessage(payload, v1, v2));
  }
}
