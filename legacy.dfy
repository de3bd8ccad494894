/** The older copy of the codec kept in the `optitrack` package. Its element
    decoders read the same bytes as the current ones, so they are shared; what
    differs is
    - the code of `MessageId.UnrecognizedRequest` (100 rather than 0x100),
    - the sized `unpack_cstr`, which looks for the NUL past its window
      (`Dialect.Legacy` of the shared cursor),
    - the frame and server-info decoders, which start their own cursor at
      offset 0 of the raw payload, and a frame that ends after its params word
      without reading the trailing uint32. */
module Legacy {
  import opened Results
  import opened IntFormats
  import opened Common
  import opened MocapFrame
  import opened ServerInfo

  // ------------------------------------------------------------ message ids

  /** The legacy numbering: 0..14 in declaration order, then 100. */
  function LegacyCode(m: MessageId): nat
  {
    if m == UnrecognizedRequest then 100 else Code(m)
  }

  /** `MessageId(c)` of the legacy enum. */
  function LegacyFromCode(c: int): (r: Option<MessageId>)
    ensures r.Some? ==> LegacyCode(r.value) == c
    ensures r.None? <==> forall m :: LegacyCode(m) != c
  {
    if 0 <= c <= 14 then FromCode(c)
    else if c == 100 then Some(UnrecognizedRequest)
    else None
  }

  /** The two numberings agree on every id but UnrecognizedRequest, which
      neither codec recognises under the other's code. */
  lemma MessageIdsDiverge(m: MessageId)
    ensures m != UnrecognizedRequest ==> LegacyCode(m) == Code(m) && LegacyCode(m) <= 14
    ensures LegacyCode(UnrecognizedRequest) == 100 && Code(UnrecognizedRequest) == 256
    ensures FromCode(100) == None && LegacyFromCode(256) == None
    ensures LegacyFromCode(LegacyCode(m)) == Some(m)
  {
  }

  // ----------------------------------------------------------------- frames

  /** `MocapFrameMessage.deserialize(data, version)` of the legacy codec: a fresh
      cursor over the payload, read up to and including the params word. */
  function DecodeLegacyMocapFrame(d: Bytes, v: Version): Result<MocapFrameMessage>
  {
    var body :- DecodeFrameBody(d, 0, v);
    Ok(body.value)
  }

  /** The legacy frame is the current frame without the trailing uint32: where
      the current decoder succeeds the legacy one yields the same frame, and it
      succeeds on exactly the payloads whose body is followed by fewer bytes
      too, which the current decoder rejects. */
  lemma LegacyFrameSkipsTrailer(d: Bytes, v: Version)
    ensures DecodeMocapFrame(d, 0, v).Ok? ==>
      && DecodeLegacyMocapFrame(d, v) == Ok(DecodeMocapFrame(d, 0, v).value.value)
      && DecodeMocapFrame(d, 0, v).value.next == DecodeFrameBody(d, 0, v).value.next + UInt32Size
    ensures DecodeMocapFrame(d, 0, v).Ok? <==>
      DecodeLegacyMocapFrame(d, v).Ok? && DecodeFrameBody(d, 0, v).value.next + UInt32Size <= |d|
  {
  }

  /** The legacy frame obeys the same version gates: without skeletons below or
      at 2, without labelled markers before 2.3, force plates before 2.9 and
      devices before 2.11. */
  lemma LegacyFrameGates(d: Bytes, v: Version)
    requires DecodeLegacyMocapFrame(d, v).Ok?
    ensures var f := DecodeLegacyMocapFrame(d, v).value;
      && |f.markersets| == UIntLE(d[4..8])
      && (!HasSkeletons(v) ==> f.skeletons == [])
      && (!Since(v, 2, 3) ==> f.labelledMarkers == [])
      && (!Since(v, 2, 9) ==> f.forcePlates == [])
      && (!Since(v, 2, 11) ==> f.devices == [])
  {
    var f := DecodeFrameBody(d, 0, v).value.value;
    assert DecodeLegacyMocapFrame(d, v).value == f;
    FrameBodyLayout(d, 0, v);
    assert CountAt(d, 4, |f.markersets|);
  }

  /** The legacy reader: its own cursor over the payload, the frame body, no trailer. */
  method ReadLegacyMocapFrame(data: Bytes, v: Version) returns (r: Result<MocapFrameMessage>)
    ensures r == DecodeLegacyMocapFrame(data, v)
  {
    var buf := new ParseBuffer.OfLegacy(data);
    r := ReadFrameBody(buf, v);
  }

  // ------------------------------------------------------------ server info

  /** `ServerInfoMessage.deserialize(data, version)` of the legacy codec. */
  function DecodeLegacyServerInfo(d: Bytes, v: Version): Result<ServerInfoMessage>
  {
    var p :- DecodeServerInfo(Legacy, d, 0, v);
    Ok(p.value)
  }

  /** `partition` over a buffer that has a NUL in its first `k` bytes finds it
      there; over one that has none there, the result runs on past `k`. */
  lemma {:induction false} BeforeNulSplit(s: Bytes, k: nat)
    requires k <= |s|
    ensures !NoNul(s[..k]) ==> BeforeNul(s) == BeforeNul(s[..k])
    ensures NoNul(s[..k]) ==> BeforeNul(s) == s[..k] + BeforeNul(s[k..])
  {
    if k > 0 {
      assert s[1..][..k - 1] == s[..k][1..];
      assert s[1..][k - 1..] == s[k..];
      BeforeNulSplit(s[1..], k - 1);
      if s[0] != 0 {
        assert s[..k] == [s[0]] + s[..k][1..];
        assert !NoNul(s[..k]) ==> !NoNul(s[..k][1..]) by {
          if !NoNul(s[..k]) {
            var i :| 0 <= i < k && s[..k][i] == 0;
            assert s[..k][1..][i - 1] == 0;
          }
        }
        assert NoNul(s[..k]) ==> NoNul(s[..k][1..]) by {
          if NoNul(s[..k]) {
            forall i | 0 <= i < k - 1 ensures s[..k][1..][i] != 0 {
              assert s[..k][1..][i] == s[..k][i + 1];
            }
          }
        }
      }
    }
  }

  /** The two codecs read the same server-info fields from the same bytes and
      fail on the same payloads, except for the application name: they agree on
      it exactly when a NUL occurs among the first 257 bytes, that is when the
      name ends inside the window or right after it. */
  lemma LegacyServerInfoDiverges(d: Bytes, v: Version)
    ensures DecodeLegacyServerInfo(d, v).Ok? <==> DecodeServerInfo(Current, d, 0, v).Ok?
    ensures DecodeLegacyServerInfo(d, v).Ok? ==>
      var legacy, current := DecodeLegacyServerInfo(d, v).value, DecodeServerInfo(Current, d, 0, v).value.value;
      && legacy.appVersion == current.appVersion
      && legacy.natnetVersion == current.natnetVersion
      && legacy.clockFrequency == current.clockFrequency
      && legacy.connectionInfo == current.connectionInfo
      && (legacy.appName == current.appName <==> !NoNul(d[..AppNameSize + 1]))
  {
    ServerInfoLayout(Legacy, d, 0, v);
    ServerInfoLayout(Current, d, 0, v);
    if DecodeLegacyServerInfo(d, v).Ok? {
      AppNameLayout(d, 0, v);
      assert d[0..] == d;
      assert d[..AppNameSize] == d[0..AppNameSize];
      var w := d[..AppNameSize];
      BeforeNulSplit(d, AppNameSize);
      BeforeNulSplit(d, AppNameSize + 1);
      assert d[..AppNameSize + 1] == w + [d[AppNameSize]];
      if NoNul(w) {
        BeforeNulOfNoNul(w);
        assert BeforeNul(d[AppNameSize..]) == [] <==> d[AppNameSize] == 0;
        assert NoNul(d[..AppNameSize + 1]) <==> d[AppNameSize] != 0 by {
          assert d[..AppNameSize + 1][AppNameSize] == d[AppNameSize];
          forall i | 0 <= i < AppNameSize ensures d[..AppNameSize + 1][i] == w[i] { }
        }
      } else {
        var i :| 0 <= i < AppNameSize && w[i] == 0;
        assert d[..AppNameSize + 1][i] == 0;
      }
    }
  }

  /** The legacy reader: its own cursor over the payload. */
  method ReadLegacyServerInfo(data: Bytes, v: Version) returns (r: Result<ServerInfoMessage>)
    ensures r == DecodeLegacyServerInfo(data, v)
  {
    var buf := new ParseBuffer.OfLegacy(data);
    r := ReadServerInfo(buf, v);
  }
}
