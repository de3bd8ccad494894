/** The ServerInfo payload: the application name in a 256-byte window, the
    application and NatNet versions, and from version 3 the clock frequency
    and the data-connection details. */
module ServerInfo {
  import opened Results
  import opened IntFormats
  import opened Common

  // ------------------------------------------------------------ data model

  /** `ConnectionInfo`; `addressBytes` is the private `_multicast_address`, which
      a short buffer can leave shorter than 4 bytes. */
  datatype ConnectionInfo = ConnectionInfo(dataPort: nat, multicast: bool, addressBytes: Bytes)

  datatype ServerInfoMessage = ServerInfoMessage(
    appName: Bytes,
    appVersion: Version,
    natnetVersion: Version,
    clockFrequency: Option<nat>,
    connectionInfo: Option<ConnectionInfo>)

  const AppNameSize: nat := 256
  const ConnectionInfoSize: nat := UInt16Size + BoolSize + 4

  /** Bytes a ServerInfo payload occupies: 264 before version 3, 279 from it. */
  function ServerInfoSize(v: Version): nat
  {
    AppNameSize + 4 + 4 + if Since(v, 3, 0) then UInt64Size + ConnectionInfoSize else 0
  }

  // ------------------------------------------------- decoders, as specification

  /** `ConnectionInfo.deserialize`: port, flag, then 4 raw address bytes. */
  function DecodeConnectionInfo(d: Bytes, off: nat, v: Version): Result<Parsed<ConnectionInfo>>
  {
    var port :- DecodeUInt16(d, off, v);
    var multicast :- BoolField(d, port.next);
    var address := RawBytes(d, multicast.next, 4);
    Ok(Parsed(ConnectionInfo(port.value, multicast.value, address.value), address.next))
  }

  /** `ServerInfoMessage.deserialize`. The legacy copy differs only in its
      cursor, whose windowed string search runs past the window. */
  function DecodeServerInfo(dialect: Dialect, d: Bytes, off: nat, v: Version): Result<Parsed<ServerInfoMessage>>
  {
    var name := CStr(dialect, d, off, AppNameSize);
    var app :- DecodeVersion(d, name.next, v);
    var natnet :- DecodeVersion(d, app.next, v);
    if Since(v, 3, 0) then
      var frequency :- DecodeUInt64(d, natnet.next, v);
      var info :- DecodeConnectionInfo(d, frequency.next, v);
      Ok(Parsed(ServerInfoMessage(name.value, app.value, natnet.value, Some(frequency.value), Some(info.value)),
                info.next))
    else
      Ok(Parsed(ServerInfoMessage(name.value, app.value, natnet.value, None, None), natnet.next))
  }

  // ------------------------------------------------------- dotted decimal

  function DigitChar(k: nat): char
    requires k < 10
  {
    ('0' as int + k) as char
  }

  /** The decimal numeral of `n`, as `str(n)`. */
  function Decimal(n: nat): (s: string)
    ensures 1 <= |s|
    ensures forall i :: 0 <= i < |s| ==> '0' <= s[i] <= '9'
  {
    if n < 10 then [DigitChar(n)] else Decimal(n / 10) + [DigitChar(n % 10)]
  }

  /** The value of a string of decimal digits. */
  function DecimalValue(s: string): nat
    requires forall i :: 0 <= i < |s| ==> '0' <= s[i] <= '9'
  {
    if s == [] then 0 else 10 * DecimalValue(s[..|s| - 1]) + (s[|s| - 1] as int - '0' as int)
  }

  /** `socket.inet_ntoa` of the address bytes; anything but 4 bytes raises. */
  function MulticastAddress(c: ConnectionInfo): (r: Result<string>)
    ensures r.Ok? <==> |c.addressBytes| == 4
  {
    if |c.addressBytes| != 4 then Err(BadAddressLength)
    else
      var a := c.addressBytes;
      Ok(DottedQuad(a[0], a[1], a[2], a[3]))
  }

  function DottedQuad(a0: nat, a1: nat, a2: nat, a3: nat): string
  {
    Decimal(a0) + "." + (Decimal(a1) + "." + (Decimal(a2) + "." + Decimal(a3)))
  }

  // ------------------------------------------------------------ properties

  /** Reading a numeral back gives the number. */
  lemma {:induction false} DecimalRoundTrip(n: nat)
    ensures DecimalValue(Decimal(n)) == n
  {
    if n >= 10 {
      var s := Decimal(n);
      assert s[..|s| - 1] == Decimal(n / 10);
      DecimalRoundTrip(n / 10);
    }
  }

  /** The index of the first dot, or the length when there is none. */
  function FirstDot(s: string): (k: nat)
    ensures k <= |s|
  {
    if s == [] || s[0] == '.' then 0 else 1 + FirstDot(s[1..])
  }

  /** The first dot of a dot-free part, a dot and a rest is the one after the part. */
  lemma {:induction false} FirstDotAfter(x: string, r: string)
    requires NoDot(x)
    ensures FirstDot(x + "." + r) == |x|
  {
    if x != [] {
      assert (x + "." + r)[1..] == x[1..] + "." + r;
      FirstDotAfter(x[1..], r);
    }
  }

  /** Two dot-free parts before a dot are equal when the strings are. */
  lemma SplitAtDot(x: string, r: string, y: string, t: string)
    requires NoDot(x) && NoDot(y)
    requires x + "." + r == y + "." + t
    ensures x == y && r == t
  {
    var s := x + "." + r;
    FirstDotAfter(x, r);
    FirstDotAfter(y, t);
    assert x == s[..|x|] == y;
    assert r == s[|x| + 1..] == t;
  }

  predicate NoDot(s: string)
  {
    forall i :: 0 <= i < |s| ==> s[i] != '.'
  }

  /** Distinct numbers have distinct numerals. */
  lemma DecimalInjective(m: nat, n: nat)
    requires Decimal(m) == Decimal(n)
    ensures m == n
  {
    DecimalRoundTrip(m);
    DecimalRoundTrip(n);
  }

  lemma DecimalHasNoDot(n: nat)
    ensures NoDot(Decimal(n))
  {
  }

  /** A dotted quad determines its four numbers. */
  lemma DottedQuadInjective(a0: nat, a1: nat, a2: nat, a3: nat, b0: nat, b1: nat, b2: nat, b3: nat)
    requires DottedQuad(a0, a1, a2, a3) == DottedQuad(b0, b1, b2, b3)
    ensures a0 == b0 && a1 == b1 && a2 == b2 && a3 == b3
  {
    var sa, sb := Decimal(a2) + "." + Decimal(a3), Decimal(b2) + "." + Decimal(b3);
    var ra, rb := Decimal(a1) + "." + sa, Decimal(b1) + "." + sb;
    DecimalHasNoDot(a0);
    DecimalHasNoDot(b0);
    SplitAtDot(Decimal(a0), ra, Decimal(b0), rb);
    DecimalHasNoDot(a1);
    DecimalHasNoDot(b1);
    SplitAtDot(Decimal(a1), sa, Decimal(b1), sb);
    DecimalHasNoDot(a2);
    DecimalHasNoDot(b2);
    SplitAtDot(Decimal(a2), Decimal(a3), Decimal(b2), Decimal(b3));
    DecimalInjective(a0, b0);
    DecimalInjective(a1, b1);
    DecimalInjective(a2, b2);
    DecimalInjective(a3, b3);
  }

  /** The dotted-decimal form determines the 4 address bytes. */
  lemma MulticastAddressInjective(c1: ConnectionInfo, c2: ConnectionInfo)
    requires MulticastAddress(c1).Ok? && MulticastAddress(c1) == MulticastAddress(c2)
    ensures c1.addressBytes == c2.addressBytes
  {
    var a, b := c1.addressBytes, c2.addressBytes;
    DottedQuadInjective(a[0], a[1], a[2], a[3], b[0], b[1], b[2], b[3]);
    assert a == [a[0], a[1], a[2], a[3]] && b == [b[0], b[1], b[2], b[3]];
  }

  /** The numerals of the recorded server's address bytes. */
  lemma RecordedNumerals()
    ensures Decimal(239) == "239" && Decimal(255) == "255" && Decimal(42) == "42" && Decimal(99) == "99"
  {
    assert Decimal(2) == "2" && Decimal(4) == "4" && Decimal(9) == "9";
    assert Decimal(23) == "23" && Decimal(25) == "25";
  }

  /** The recorded server's address bytes 239, 255, 42, 99. */
  lemma RecordedMulticastAddress(c: ConnectionInfo)
    requires c.addressBytes == [239, 255, 42, 99]
    ensures MulticastAddress(c) == Ok("239.255.42.99")
  {
    RecordedNumerals();
    assert DottedQuad(239, 255, 42, 99) == "239" + "." + ("255" + "." + ("42" + "." + "99"));
    assert "239" + "." + ("255" + "." + ("42" + "." + "99")) == "239.255.42.99";
    var a := c.addressBytes;
    assert a[0] == 239 && a[1] == 255 && a[2] == 42 && a[3] == 99;
  }

  /** The port is the first uint16, then the flag byte, then the address bytes;
      only the two fields can fail and the cursor always moves 7 bytes. */
  lemma ConnectionInfoLayout(d: Bytes, off: nat, v: Version)
    ensures DecodeConnectionInfo(d, off, v).Ok? <==> off + 3 <= |d|
    ensures DecodeConnectionInfo(d, off, v).Ok? ==>
      var c := DecodeConnectionInfo(d, off, v).value;
      && c.next == off + ConnectionInfoSize
      && c.value.dataPort == UIntLE(d[off..off + 2])
      && c.value.multicast == (d[off + 2] != 0)
      && (off + 7 <= |d| ==> c.value.addressBytes == d[off + 3..off + 7])
  {
  }

  /** A ServerInfo payload fails only on a buffer too short for its fixed fields
      (the address bytes never fail), and then consumes exactly 264 bytes before
      version 3 and 279 from it; the optional parts are there exactly from 3. */
  lemma ServerInfoLayout(dialect: Dialect, d: Bytes, off: nat, v: Version)
    ensures var fixed := AppNameSize + 8 + if Since(v, 3, 0) then UInt64Size + UInt16Size + BoolSize else 0;
      DecodeServerInfo(dialect, d, off, v).Ok? <==> off + fixed <= |d|
    ensures DecodeServerInfo(dialect, d, off, v).Ok? ==>
      var p := DecodeServerInfo(dialect, d, off, v).value;
      && p.next == off + ServerInfoSize(v)
      && (p.value.clockFrequency.Some? <==> Since(v, 3, 0))
      && (p.value.connectionInfo.Some? <==> Since(v, 3, 0))
      && p.value.appVersion == Version(d[off + 256], d[off + 257], d[off + 258], d[off + 259])
      && p.value.natnetVersion == Version(d[off + 260], d[off + 261], d[off + 262], d[off + 263])
  {
    if Since(v, 3, 0) {
      ConnectionInfoLayout(d, off + 272, v);
    }
  }

  /** The current code takes the name from the 256-byte window, up to its first
      NUL; the legacy code takes it from the rest of the buffer. */
  lemma AppNameLayout(d: Bytes, off: nat, v: Version)
    requires off + AppNameSize <= |d|
    ensures var name := DecodeServerInfo(Current, d, off, v);
      name.Ok? ==> name.value.value.appName == BeforeNul(d[off..off + AppNameSize])
    ensures var name := DecodeServerInfo(Legacy, d, off, v);
      name.Ok? ==> name.value.value.appName == BeforeNul(d[off..])
  {
    LegacyCStrLayout(d, off, AppNameSize);
  }

  // ------------------------------------------------------------ the readers

  method ReadConnectionInfo(buf: ParseBuffer, v: Version) returns (r: Result<ConnectionInfo>)
    modifies buf
    ensures Agrees(r, DecodeConnectionInfo(buf.data, old(buf.offset), v), buf.offset)
  {
    var port :- buf.UnpackUInt(UInt16Size);
    var multicast :- buf.UnpackBool();
    var address := buf.UnpackBytes(4);
    r := Ok(ConnectionInfo(port, multicast, address));
  }

  method ReadServerInfo(buf: ParseBuffer, v: Version) returns (r: Result<ServerInfoMessage>)
    modifies buf
    ensures Agrees(r, DecodeServerInfo(buf.dialect, buf.data, old(buf.offset), v), buf.offset)
  {
    var name := buf.UnpackCstr(AppNameSize);
    var app :- ReadVersion(buf, v);
    var natnet :- ReadVersion(buf, v);
    var frequency: Option<nat> := None;
    var info: Option<ConnectionInfo> := None;
    if Since(v, 3, 0) {
      var f :- buf.UnpackUInt(UInt64Size);
      var c :- ReadConnectionInfo(buf, v);
      frequency, info := Some(f), Some(c);
    }
    r := Ok(ServerInfoMessage(name, app, natnet, frequency, info));
  }
}
