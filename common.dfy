/** The shared part of the codec: message ids, the protocol version, the field
    formats and the cursor (`ParseBuffer`) that every decoder advances. */
module Common {
  import opened Results
  import opened IntFormats

  /** Message ids, numbered as in NatNetTypes.h. */
  datatype MessageId =
    | Connect | ServerInfo | Request | Response | RequestModelDef | ModelDef
    | RequestFrameOfData | FrameOfData | MessageString | Disconnect | KeepAlive
    | DisconnectByTimeout | EchoRequest | EchoResponse | Discovery | UnrecognizedRequest

  function Code(m: MessageId): nat
  {
    match m
    case Connect => 0
    case ServerInfo => 1
    case Request => 2
    case Response => 3
    case RequestModelDef => 4
    case ModelDef => 5
    case RequestFrameOfData => 6
    case FrameOfData => 7
    case MessageString => 8
    case Disconnect => 9
    case KeepAlive => 10
    case DisconnectByTimeout => 11
    case EchoRequest => 12
    case EchoResponse => 13
    case Discovery => 14
    case UnrecognizedRequest => 0x100
  }

  /** `MessageId(c)`: the member with code `c`, if there is one. */
  function FromCode(c: int): (r: Option<MessageId>)
    ensures r.Some? ==> Code(r.value) == c
    ensures r.None? <==> forall m :: Code(m) != c
  {
    if 0 <= c <= 14 then
      Some([Connect, ServerInfo, Request, Response, RequestModelDef, ModelDef,
            RequestFrameOfData, FrameOfData, MessageString, Disconnect, KeepAlive,
            DisconnectByTimeout, EchoRequest, EchoResponse, Discovery][c])
    else if c == 0x100 then Some(UnrecognizedRequest)
    else None
  }

  /** Distinct ids have distinct codes, so `FromCode` inverts `Code`. */
  lemma CodeInjective(m: MessageId, n: MessageId)
    ensures Code(m) == Code(n) ==> m == n
    ensures FromCode(Code(m)) == Some(m)
  {
  }

  // ---------------------------------------------------------------- versions

  /** A NatNet version; the Python namedtuple accepts any integers. */
  datatype Version = Version(major: int, minor: int, build: int, revision: int)

  /** `Version(major, minor=0, build=0, revision=0)`. */
  function MakeVersion(major: int, minor: int := 0, build: int := 0, revision: int := 0): Version
  {
    Version(major, minor, build, revision)
  }

  /** Tuple comparison: lexicographic on (major, minor, build, revision). */
  predicate Less(a: Version, b: Version)
  {
    || a.major < b.major
    || (a.major == b.major && a.minor < b.minor)
    || (a.major == b.major && a.minor == b.minor && a.build < b.build)
    || (a.major == b.major && a.minor == b.minor && a.build == b.build && a.revision < b.revision)
  }

  predicate LessEq(a: Version, b: Version)
  {
    Less(a, b) || a == b
  }

  /** The comparison is a strict total order, and `<=` is its reflexive closure. */
  lemma VersionOrder(a: Version, b: Version, c: Version)
    ensures !Less(a, a)
    ensures Less(a, b) && Less(b, c) ==> Less(a, c)
    ensures Less(a, b) || a == b || Less(b, a)
    ensures LessEq(a, b) <==> !Less(b, a)
  {
  }

  /** Omitted components default to 0. */
  lemma VersionDefaults(major: int, minor: int)
    ensures MakeVersion(major) == Version(major, 0, 0, 0)
    ensures MakeVersion(major, minor) == Version(major, minor, 0, 0)
  {
  }

  /** Every comparison the parsers make holds as expected for version 3. */
  lemma Version3Comparisons()
    ensures Less(MakeVersion(2), MakeVersion(3))
    ensures LessEq(MakeVersion(2), MakeVersion(3)) && LessEq(MakeVersion(2, 3), MakeVersion(3))
    ensures LessEq(MakeVersion(2, 6), MakeVersion(3)) && LessEq(MakeVersion(2, 9), MakeVersion(3))
    ensures LessEq(MakeVersion(2, 11), MakeVersion(3)) && LessEq(MakeVersion(3), MakeVersion(3))
    ensures !Less(MakeVersion(3), MakeVersion(3))
  {
  }

  // ----------------------------------------------------------- field formats

  /** Sizes of the struct formats bool_t, int16_t, uint16_t, int32_t, uint32_t,
      uint64_t, float_t, double_t, vector3_t and quaternion_t. */
  const BoolSize: nat := 1
  const Int16Size: nat := 2
  const UInt16Size: nat := 2
  const Int32Size: nat := 4
  const UInt32Size: nat := 4
  const UInt64Size: nat := 8
  const FloatSize: nat := 4
  const DoubleSize: nat := 8
  const Vector3Size: nat := 12
  const QuaternionSize: nat := 16

  /** Floating-point fields are kept as the raw words they occupy on the wire. */
  type FloatWord = s: Bytes | |s| == 4 witness [0, 0, 0, 0]
  type DoubleWord = s: Bytes | |s| == 8 witness [0, 0, 0, 0, 0, 0, 0, 0]
  type Vector3Word = s: Bytes | |s| == 12 witness [0, 0, 0, 0, 0, 0, 0, 0, 0, 0, 0, 0]
  type QuaternionWord = s: Bytes | |s| == 16 witness [0, 0, 0, 0, 0, 0, 0, 0, 0, 0, 0, 0, 0, 0, 0, 0]

  // ------------------------------------------------- cursor, as specification

  /** `data[lo:hi]` as Python slices a buffer that may end before `hi`. */
  function Slice(d: Bytes, lo: nat, hi: nat): (s: Bytes)
    ensures lo <= hi ==> |s| <= hi - lo
    ensures lo <= hi <= |d| ==> s == d[lo..hi]
    ensures lo <= |d| <= hi ==> s == d[lo..]
  {
    if lo >= |d| || hi <= lo then [] else d[lo..if hi <= |d| then hi else |d|]
  }

  /** `struct.unpack` of a `size`-byte format at `off`: exactly those bytes, or
      struct.error when fewer remain. */
  function Field(d: Bytes, off: nat, size: nat): (r: Result<Parsed<Bytes>>)
    ensures r.Ok? <==> off + size <= |d|
    ensures r.Ok? ==> r.value.value == d[off..off + size] && r.value.next == off + size
  {
    if off + size <= |d| then Ok(Parsed(d[off..off + size], off + size)) else Err(StructError)
  }

  /** An unsigned little-endian field ('<H', '<I', '<Q'). */
  function UIntField(d: Bytes, off: nat, size: nat): Result<Parsed<nat>>
  {
    var f :- Field(d, off, size);
    Ok(Parsed(UIntLE(f.value), f.next))
  }

  /** A signed little-endian field ('<h', '<i'). */
  function IntField(d: Bytes, off: nat, size: nat): Result<Parsed<int>>
  {
    var f :- Field(d, off, size);
    Ok(Parsed(IntLE(f.value), f.next))
  }

  /** A '?' field. */
  function BoolField(d: Bytes, off: nat): Result<Parsed<bool>>
  {
    var f :- Field(d, off, BoolSize);
    Ok(Parsed(BoolOf(f.value[0]), f.next))
  }

  predicate NoNul(s: Bytes)
  {
    forall i :: 0 <= i < |s| ==> s[i] != 0
  }

  /** `s.partition(b'\0')[0]`: the bytes before the first NUL, or all of `s`. */
  function BeforeNul(s: Bytes): (r: Bytes)
    ensures |r| <= |s|
  {
    if |s| == 0 || s[0] == 0 then [] else [s[0]] + BeforeNul(s[1..])
  }

  /** The value is a NUL-free prefix of `s`, and a NUL ends it unless it is all of `s`. */
  lemma {:induction false} BeforeNulPrefix(s: Bytes)
    ensures var r := BeforeNul(s);
      && r == s[..|r|] && NoNul(r)
      && (|r| < |s| ==> s[|r|] == 0)
  {
    if |s| > 0 && s[0] != 0 {
      BeforeNulPrefix(s[1..]);
    }
  }

  /** How `unpack_cstr` finds the string: the current code searches only the
      sized window, the legacy copy the whole rest of the buffer. */
  datatype Dialect = Current | Legacy

  /** `unpack_cstr(size)`. A `size` of 0 is falsy in Python, so it behaves like
      the default None: read up to the first NUL and skip it. */
  function CStr(dialect: Dialect, d: Bytes, off: nat, size: nat): Parsed<Bytes>
  {
    if size == 0 then
      var value := BeforeNul(Slice(d, off, |d|));
      Parsed(value, off + |value| + 1)
    else
      var field := if dialect == Current then Slice(d, off, off + size) else Slice(d, off, |d|);
      Parsed(BeforeNul(field), off + size)
  }

  /** `unpack_bytes(size)`: the (possibly short) slice; it never fails. */
  function RawBytes(d: Bytes, off: nat, size: nat): (p: Parsed<Bytes>)
    ensures p.next == off + size
    ensures |p.value| == size <==> size == 0 || off + size <= |d|
    ensures off + size <= |d| ==> p.value == d[off..off + size]
  {
    Parsed(Slice(d, off, off + size), off + size)
  }

  /** `Version.deserialize`: four unsigned bytes. */
  function DecodeVersion(d: Bytes, off: nat, v: Version): (r: Result<Parsed<Version>>)
    ensures r.Ok? <==> off + 4 <= |d|
    ensures r.Ok? ==> r.value.next == off + 4
  {
    var f :- Field(d, off, 4);
    Ok(Parsed(Version(f.value[0], f.value[1], f.value[2], f.value[3]), f.next))
  }

  predicate IsByte(x: int)
  {
    0 <= x < 256
  }

  /** `Version.serialize`: struct 'BBBB' raises unless every component is a byte. */
  function SerializeVersion(x: Version): (r: Result<Bytes>)
    ensures r.Ok? <==> IsByte(x.major) && IsByte(x.minor) && IsByte(x.build) && IsByte(x.revision)
    ensures r.Ok? ==> |r.value| == 4
  {
    if IsByte(x.major) && IsByte(x.minor) && IsByte(x.build) && IsByte(x.revision) then
      Ok([x.major, x.minor, x.build, x.revision])
    else
      Err(StructError)
  }

  /** `version >= Version(major, minor)`. */
  predicate Since(v: Version, major: int, minor: int)
  {
    LessEq(MakeVersion(major, minor), v)
  }

  /** `version >= Version(major, minor) or version.major == 0`: the gate of
      fields that a peer of unknown version (major 0) is taken to send. */
  predicate SinceOrUnknown(v: Version, major: int, minor: int)
  {
    Since(v, major, minor) || v.major == 0
  }

  // ------------------------------------------------------ field decoders

  /** The struct formats of the module, as decoders; floats stay opaque words. */
  function DecodeUInt16(d: Bytes, off: nat, v: Version): Result<Parsed<nat>>
  {
    UIntField(d, off, UInt16Size)
  }

  function DecodeUInt32(d: Bytes, off: nat, v: Version): Result<Parsed<nat>>
  {
    UIntField(d, off, UInt32Size)
  }

  function DecodeUInt64(d: Bytes, off: nat, v: Version): Result<Parsed<nat>>
  {
    UIntField(d, off, UInt64Size)
  }

  function DecodeInt16(d: Bytes, off: nat, v: Version): Result<Parsed<int>>
  {
    IntField(d, off, Int16Size)
  }

  function DecodeInt32(d: Bytes, off: nat, v: Version): Result<Parsed<int>>
  {
    IntField(d, off, Int32Size)
  }

  function DecodeFloat(d: Bytes, off: nat, v: Version): Result<Parsed<FloatWord>>
  {
    var f :- Field(d, off, FloatSize);
    Ok(Parsed(f.value, f.next))
  }

  function DecodeDouble(d: Bytes, off: nat, v: Version): Result<Parsed<DoubleWord>>
  {
    var f :- Field(d, off, DoubleSize);
    Ok(Parsed(f.value, f.next))
  }

  function DecodeVector3(d: Bytes, off: nat, v: Version): Result<Parsed<Vector3Word>>
  {
    var f :- Field(d, off, Vector3Size);
    Ok(Parsed(f.value, f.next))
  }

  function DecodeQuaternion(d: Bytes, off: nat, v: Version): Result<Parsed<QuaternionWord>>
  {
    var f :- Field(d, off, QuaternionSize);
    Ok(Parsed(f.value, f.next))
  }

  // ------------------------------------------- lists, options, counted lists

  /** Every `deserialize(data, version)` classmethod, as a specification. */
  type Decoder<T> = (Bytes, nat, Version) -> Result<Parsed<T>>

  /** `[f(data, version) for i in range(n)]`: `n` values read one after another. */
  function Repeat<T>(f: Decoder<T>, d: Bytes, off: nat, v: Version, n: nat): (r: Result<Parsed<seq<T>>>)
    ensures r.Ok? ==> |r.value.value| == n
    decreases n
  {
    if n == 0 then Ok(Parsed([], off))
    else
      var first :- f(d, off, v);
      var rest :- Repeat(f, d, first.next, v, n - 1);
      Ok(Parsed([first.value] + rest.value, rest.next))
  }

  /** A uint32 count followed by that many values. */
  function Counted<T>(f: Decoder<T>, d: Bytes, off: nat, v: Version): Result<Parsed<seq<T>>>
  {
    var count :- UIntField(d, off, UInt32Size);
    Repeat(f, d, count.next, v, count.value)
  }

  /** A counted list that is on the wire only when `present`; otherwise it is
      empty and no bytes are read. */
  function GatedCounted<T>(present: bool, f: Decoder<T>, d: Bytes, off: nat, v: Version): Result<Parsed<seq<T>>>
  {
    if present then Counted(f, d, off, v) else Ok(Parsed([], off))
  }

  /** A value that is on the wire only when `present`; otherwise None. */
  function Optional<T>(present: bool, f: Decoder<T>, d: Bytes, off: nat, v: Version): Result<Parsed<Option<T>>>
  {
    if present then
      var x :- f(d, off, v);
      Ok(Parsed(Some(x.value), x.next))
    else
      Ok(Parsed(None, off))
  }

  /** The values `xs` were read one after another, the `j`-th from `offs[j]`
      to `offs[j + 1]`: the state of a reading loop. */
  ghost predicate Chain<T>(f: Decoder<T>, d: Bytes, v: Version, offs: seq<nat>, xs: seq<T>)
  {
    && |offs| == |xs| + 1
    && forall j :: 0 <= j < |xs| ==> f(d, offs[j], v) == Ok(Parsed(xs[j], offs[j + 1]))
  }

  /** A value read at the end of a chain extends it. */
  lemma ChainExtend<T>(f: Decoder<T>, d: Bytes, v: Version, offs: seq<nat>, xs: seq<T>, x: T, next: nat)
    requires Chain(f, d, v, offs, xs)
    requires f(d, offs[|xs|], v) == Ok(Parsed(x, next))
    ensures Chain(f, d, v, offs + [next], xs + [x])
  {
    var offs', xs' := offs + [next], xs + [x];
    forall j | 0 <= j < |xs'|
      ensures f(d, offs'[j], v) == Ok(Parsed(xs'[j], offs'[j + 1]))
    {
      if j < |xs| {
        assert offs'[j] == offs[j] && offs'[j + 1] == offs[j + 1] && xs'[j] == xs[j];
      }
    }
  }

  /** A chain of `n` values is what `Repeat` reads. */
  lemma {:induction false} ChainDone<T>(f: Decoder<T>, d: Bytes, v: Version, offs: seq<nat>, xs: seq<T>)
    requires Chain(f, d, v, offs, xs)
    ensures Repeat(f, d, offs[0], v, |xs|) == Ok(Parsed(xs, offs[|xs|]))
    decreases |xs|
  {
    if |xs| > 0 {
      assert f(d, offs[0], v) == Ok(Parsed(xs[0], offs[1]));
      assert Chain(f, d, v, offs[1..], xs[1..]) by {
        forall j | 0 <= j < |xs[1..]|
          ensures f(d, offs[1..][j], v) == Ok(Parsed(xs[1..][j], offs[1..][j + 1]))
        {
          assert f(d, offs[j + 1], v) == Ok(Parsed(xs[j + 1], offs[j + 2]));
        }
      }
      ChainDone(f, d, v, offs[1..], xs[1..]);
      assert [xs[0]] + xs[1..] == xs;
    }
  }

  /** A chain of fewer than `n` values whose next read fails: `Repeat` fails
      with that error. */
  lemma {:induction false} ChainFail<T>(f: Decoder<T>, d: Bytes, v: Version, offs: seq<nat>, xs: seq<T>, n: nat)
    requires Chain(f, d, v, offs, xs)
    requires |xs| < n && f(d, offs[|xs|], v).Err?
    ensures Repeat(f, d, offs[0], v, n) == Err(f(d, offs[|xs|], v).error)
    decreases |xs|
  {
    if |xs| > 0 {
      assert f(d, offs[0], v) == Ok(Parsed(xs[0], offs[1]));
      assert Chain(f, d, v, offs[1..], xs[1..]) by {
        forall j | 0 <= j < |xs[1..]|
          ensures f(d, offs[1..][j], v) == Ok(Parsed(xs[1..][j], offs[1..][j + 1]))
        {
          assert f(d, offs[j + 1], v) == Ok(Parsed(xs[j + 1], offs[j + 2]));
        }
      }
      ChainFail(f, d, v, offs[1..], xs[1..], n - 1);
    }
  }

  /** A decoder of fixed width `k`, such as a vector3_t, succeeds exactly when
      `k` bytes remain and then moves `k` bytes. */
  ghost predicate FixedWidth<T>(f: Decoder<T>, d: Bytes, v: Version, k: nat)
  {
    forall o: nat {:trigger f(d, o, v)} ::
      (f(d, o, v).Ok? <==> o + k <= |d|) && (f(d, o, v).Ok? ==> f(d, o, v).value.next == o + k)
  }

  /** `n` values of fixed width `k` succeed exactly when `n * k` bytes remain
      (none are needed for `n == 0`) and then consume exactly `n * k` bytes. */
  lemma {:induction false} RepeatFixedWidth<T>(f: Decoder<T>, d: Bytes, off: nat, v: Version, n: nat, k: nat)
    requires FixedWidth(f, d, v, k)
    ensures Repeat(f, d, off, v, n).Ok? <==> n == 0 || off + n * k <= |d|
    ensures Repeat(f, d, off, v, n).Ok? ==> Repeat(f, d, off, v, n).value.next == off + n * k
    decreases n
  {
    if n > 0 {
      var rest: nat := (n - 1) * k;
      assert n * k == k + rest;
      if f(d, off, v).Ok? {
        RepeatFixedWidth(f, d, off + k, v, n - 1, k);
        assert off + k + rest == off + n * k;
      }
    }
  }

  /** A counted list reads its count and then that many values. */
  lemma CountedOf<T>(f: Decoder<T>, d: Bytes, at: nat, v: Version, xs: seq<T>, end: nat)
    requires at + UInt32Size <= |d|
    requires Repeat(f, d, at + UInt32Size, v, UIntLE(d[at..at + UInt32Size])) == Ok(Parsed(xs, end))
    ensures Counted(f, d, at, v) == Ok(Parsed(xs, end))
  {
  }

  /** A property every single value read by `f` has, every value of a list has. */
  lemma {:induction false} RepeatAll<T>(f: Decoder<T>, P: T -> bool, d: Bytes, off: nat, v: Version, n: nat)
    requires forall o: nat {:trigger f(d, o, v)} :: f(d, o, v).Ok? ==> P(f(d, o, v).value.value)
    requires Repeat(f, d, off, v, n).Ok?
    ensures var xs := Repeat(f, d, off, v, n).value.value; forall i :: 0 <= i < |xs| ==> P(xs[i])
    decreases n
  {
    if n > 0 {
      var first := f(d, off, v).value;
      RepeatAll(f, P, d, first.next, v, n - 1);
    }
  }

  /** A counted list holds exactly as many values as the count read before it. */
  lemma CountedLength<T>(f: Decoder<T>, d: Bytes, off: nat, v: Version)
    requires Counted(f, d, off, v).Ok?
    ensures off + 4 <= |d|
    ensures |Counted(f, d, off, v).value.value| == UIntLE(d[off..off + 4])
  {
  }

  /** The four bytes at `at` are a uint32 count equal to `n`. */
  predicate CountAt(d: Bytes, at: nat, n: nat)
  {
    at + UInt32Size <= |d| && UIntLE(d[at..at + UInt32Size]) == n
  }

  /** A gated list is a counted list when its gate is open, and otherwise the
      empty list, read without consuming a byte. */
  lemma GatedCountedLayout<T>(present: bool, f: Decoder<T>, d: Bytes, at: nat, v: Version)
    requires GatedCounted(present, f, d, at, v).Ok?
    ensures present ==> CountAt(d, at, |GatedCounted(present, f, d, at, v).value.value|)
    ensures !present ==> GatedCounted(present, f, d, at, v).value == Parsed([], at)
  {
    if present {
      CountedLength(f, d, at, v);
    }
  }

  // ------------------------------------------------- lemmas about the cursor

  /** Reading a string without a size returns the bytes before the first NUL
      and moves past the NUL; the two dialects agree on it. */
  lemma FreeCStrLayout(dialect: Dialect, d: Bytes, off: nat)
    requires off <= |d|
    ensures var p := CStr(dialect, d, off, 0);
      && p == CStr(Current, d, off, 0)
      && NoNul(p.value)
      && p.next == off + |p.value| + 1
      && off + |p.value| <= |d|
      && p.value == d[off..off + |p.value|]
      && (p.next <= |d| ==> d[p.next - 1] == 0)
  {
    BeforeNulPrefix(d[off..]);
  }

  /** Reading a string in a window of `size` bytes always moves exactly `size`
      bytes; the value is the window up to its first NUL, or the whole window. */
  lemma SizedCStrLayout(d: Bytes, off: nat, size: nat)
    requires 0 < size && off + size <= |d|
    ensures var p := CStr(Current, d, off, size);
      && p.next == off + size
      && NoNul(p.value) && |p.value| <= size
      && p.value == d[off..off + |p.value|]
      && (|p.value| < size ==> d[off + |p.value|] == 0)
      && (NoNul(d[off..off + size]) ==> p.value == d[off..off + size])
  {
    var w := d[off..off + size];
    BeforeNulPrefix(w);
    var v := BeforeNul(w);
    assert v == w[..|v|];
  }

  /** A NUL-free string followed by a NUL is read back as itself. */
  lemma {:induction false} BeforeNulOfTerminated(v: Bytes, rest: Bytes)
    requires NoNul(v)
    ensures BeforeNul(v + [0] + rest) == v
  {
    if |v| > 0 {
      assert (v + [0] + rest)[1..] == v[1..] + [0] + rest;
      BeforeNulOfTerminated(v[1..], rest);
    }
  }

  /** A window inside a known stretch of the buffer is the matching part of that stretch. */
  lemma SubSlice(d: Bytes, off: nat, s: Bytes, i: nat, j: nat)
    requires off + |s| <= |d| && d[off..off + |s|] == s && i <= j <= |s|
    ensures d[off + i..off + j] == s[i..j]
  {
    forall k | 0 <= k < j - i
      ensures d[off + i..off + j][k] == s[i..j][k]
    {
      assert d[off + i..off + j][k] == d[off + i + k];
      assert s[i..j][k] == s[i + k] == d[off..off + |s|][i + k];
    }
  }

  /** A NUL-free string followed by a NUL reads back as itself with a free `unpack_cstr`. */
  lemma FreeCStrOfTerminated(d: Bytes, off: nat, s: Bytes)
    requires NoNul(s) && off + |s| + 1 <= |d| && d[off..off + |s| + 1] == s + [0]
    ensures CStr(Current, d, off, 0) == Parsed(s, off + |s| + 1)
  {
    assert d[off..] == s + [0] + d[off + |s| + 1..];
    BeforeNulOfTerminated(s, d[off + |s| + 1..]);
  }

  /** A NUL-free string is its own prefix before the first NUL. */
  lemma {:induction false} BeforeNulOfNoNul(v: Bytes)
    requires NoNul(v)
    ensures BeforeNul(v) == v
  {
    if |v| > 0 {
      BeforeNulOfNoNul(v[1..]);
    }
  }

  /** The legacy copy searches past the window: for the two bytes "AB" and a
      one-byte window, the current code yields "A" and the legacy code "AB". */
  lemma LegacyCStrIgnoresWindow()
    ensures CStr(Current, [65, 66], 0, 1).value == [65]
    ensures CStr(Legacy, [65, 66], 0, 1).value == [65, 66]
    ensures CStr(Legacy, [65, 66], 0, 1).next == CStr(Current, [65, 66], 0, 1).next == 1
  {
    assert BeforeNul([66]) == [66] by { assert BeforeNul([66][1..]) == []; }
    assert BeforeNul([65, 66]) == [65] + BeforeNul([66]) by { assert [65, 66][1..] == [66]; }
  }

  /** The legacy code's string is the rest of the buffer up to its first NUL,
      whatever the window. */
  lemma LegacyCStrLayout(d: Bytes, off: nat, size: nat)
    requires 0 < size && off <= |d|
    ensures var p := CStr(Legacy, d, off, size);
      && p.next == off + size
      && p.value == BeforeNul(d[off..])
  {
  }

  /** A version serialised and read back from the buffer is the same version,
      and reading consumes exactly its four bytes. */
  lemma VersionRoundTrip(x: Version, d: Bytes, off: nat)
    requires SerializeVersion(x).Ok?
    requires off + 4 <= |d| && d[off..off + 4] == SerializeVersion(x).value
    ensures DecodeVersion(d, off, x) == Ok(Parsed(x, off + 4))
  {
    assert d[off..off + 4][0] == d[off];
  }

  /** Any four bytes read as a version serialise back to the same bytes. */
  lemma VersionBytesRoundTrip(d: Bytes, off: nat, v: Version)
    requires off + 4 <= |d|
    ensures SerializeVersion(DecodeVersion(d, off, v).value.value) == Ok(d[off..off + 4])
  {
    var w := d[off..off + 4];
    assert w == [w[0], w[1], w[2], w[3]];
  }

  // --------------------------------------------------------- cursor, in code

  /** The cursor over a received packet. */
  class ParseBuffer {
    const dialect: Dialect
    const data: Bytes
    var offset: nat

    constructor (data: Bytes)
      ensures this.data == data && offset == 0 && dialect == Current
    {
      this.data := data;
      offset := 0;
      dialect := Current;
    }

    /** The cursor of the legacy codec. */
    constructor OfLegacy(data: Bytes)
      ensures this.data == data && offset == 0 && dialect == Legacy
    {
      this.data := data;
      offset := 0;
      dialect := Legacy;
    }

    /** `__len__`: what remains after the offset (negative once a read that does
        not check its length has moved past the end). */
    function Len(): int
      reads this
    {
      |data| - offset
    }

    /** `unpack(struct_type)` for a format of `size` bytes. The failing read
        raises before the offset is moved. */
    method Unpack(size: nat) returns (r: Result<Bytes>)
      modifies this
      ensures Agrees(r, Field(data, old(offset), size), offset)
      ensures r.Ok? ==> Len() == old(Len()) - size
      ensures r.Err? ==> offset == old(offset)
    {
      if offset + size <= |data| {
        r := Ok(data[offset..offset + size]);
        offset := offset + size;
      } else {
        r := Err(StructError);
      }
    }

    method UnpackUInt(size: nat) returns (r: Result<nat>)
      modifies this
      ensures Agrees(r, UIntField(data, old(offset), size), offset)
    {
      var bs :- Unpack(size);
      r := Ok(UIntLE(bs));
    }

    method UnpackInt(size: nat) returns (r: Result<int>)
      modifies this
      ensures Agrees(r, IntField(data, old(offset), size), offset)
    {
      var bs :- Unpack(size);
      r := Ok(IntLE(bs));
    }

    method UnpackBool() returns (r: Result<bool>)
      modifies this
      ensures Agrees(r, BoolField(data, old(offset)), offset)
    {
      var bs :- Unpack(BoolSize);
      r := Ok(BoolOf(bs[0]));
    }

    /** `unpack_cstr(size)`, 0 standing for the default. */
    method UnpackCstr(size: nat) returns (value: Bytes)
      modifies this
      ensures value == CStr(dialect, data, old(offset), size).value
      ensures offset == CStr(dialect, data, old(offset), size).next
    {
      var field := Slice(data, offset, |data|);
      if size != 0 && dialect == Current {
        field := Slice(data, offset, offset + size);
      }
      value := BeforeNul(field);
      if size != 0 {
        offset := offset + size;
      } else {
        offset := offset + |value| + 1;
      }
    }

    /** `unpack_bytes(size)`. */
    method UnpackBytes(size: nat) returns (value: Bytes)
      modifies this
      ensures Parsed(value, offset) == RawBytes(data, old(offset), size)
    {
      value := Slice(data, offset, offset + size);
      offset := offset + size;
    }
  }

  /** `Version.deserialize(data, version)`. */
  method ReadVersion(buf: ParseBuffer, v: Version) returns (r: Result<Version>)
    modifies buf
    ensures Agrees(r, DecodeVersion(buf.data, old(buf.offset), v), buf.offset)
  {
    var bs :- buf.Unpack(4);
    r := Ok(Version(bs[0], bs[1], bs[2], bs[3]));
  }

  method ReadFloat(buf: ParseBuffer, v: Version) returns (r: Result<FloatWord>)
    modifies buf
    ensures Agrees(r, DecodeFloat(buf.data, old(buf.offset), v), buf.offset)
  {
    var bs :- buf.Unpack(FloatSize);
    r := Ok(bs);
  }

  method ReadDouble(buf: ParseBuffer, v: Version) returns (r: Result<DoubleWord>)
    modifies buf
    ensures Agrees(r, DecodeDouble(buf.data, old(buf.offset), v), buf.offset)
  {
    var bs :- buf.Unpack(DoubleSize);
    r := Ok(bs);
  }

  method ReadVector3(buf: ParseBuffer, v: Version) returns (r: Result<Vector3Word>)
    modifies buf
    ensures Agrees(r, DecodeVector3(buf.data, old(buf.offset), v), buf.offset)
  {
    var bs :- buf.Unpack(Vector3Size);
    r := Ok(bs);
  }

  method ReadQuaternion(buf: ParseBuffer, v: Version) returns (r: Result<QuaternionWord>)
    modifies buf
    ensures Agrees(r, DecodeQuaternion(buf.data, old(buf.offset), v), buf.offset)
  {
    var bs :- buf.Unpack(QuaternionSize);
    r := Ok(bs);
  }

  /** `[data.unpack(vector3_t) for i in range(n)]`. */
  method ReadVector3s(buf: ParseBuffer, v: Version, n: nat) returns (r: Result<seq<Vector3Word>>)
    modifies buf
    ensures Agrees(r, Repeat(DecodeVector3, buf.data, old(buf.offset), v, n), buf.offset)
  {
    var items: seq<Vector3Word> := [];
    ghost var offs := [buf.offset];
    while |items| < n
      invariant Chain(DecodeVector3, buf.data, v, offs, items)
      invariant |items| <= n && offs[0] == old(buf.offset) && offs[|items|] == buf.offset
    {
      var x := ReadVector3(buf, v);
      if x.Err? {
        ChainFail(DecodeVector3, buf.data, v, offs, items, n);
        return Err(x.error);
      }
      ChainExtend(DecodeVector3, buf.data, v, offs, items, x.value, buf.offset);
      items, offs := items + [x.value], offs + [buf.offset];
    }
    ChainDone(DecodeVector3, buf.data, v, offs, items);
    r := Ok(items);
  }

  /** `[data.unpack(uint32_t) for i in range(n)]`. */
  method ReadUInt32s(buf: ParseBuffer, v: Version, n: nat) returns (r: Result<seq<nat>>)
    modifies buf
    ensures Agrees(r, Repeat(DecodeUInt32, buf.data, old(buf.offset), v, n), buf.offset)
  {
    var items: seq<nat> := [];
    ghost var offs := [buf.offset];
    while |items| < n
      invariant Chain(DecodeUInt32, buf.data, v, offs, items)
      invariant |items| <= n && offs[0] == old(buf.offset) && offs[|items|] == buf.offset
    {
      var x := buf.UnpackUInt(UInt32Size);
      if x.Err? {
        ChainFail(DecodeUInt32, buf.data, v, offs, items, n);
        return Err(x.error);
      }
      ChainExtend(DecodeUInt32, buf.data, v, offs, items, x.value, buf.offset);
      items, offs := items + [x.value], offs + [buf.offset];
    }
    ChainDone(DecodeUInt32, buf.data, v, offs, items);
    r := Ok(items);
  }

  /** `[data.unpack(float_t) for i in range(n)]`. */
  method ReadFloats(buf: ParseBuffer, v: Version, n: nat) returns (r: Result<seq<FloatWord>>)
    modifies buf
    ensures Agrees(r, Repeat(DecodeFloat, buf.data, old(buf.offset), v, n), buf.offset)
  {
    var items: seq<FloatWord> := [];
    ghost var offs := [buf.offset];
    while |items| < n
      invariant Chain(DecodeFloat, buf.data, v, offs, items)
      invariant |items| <= n && offs[0] == old(buf.offset) && offs[|items|] == buf.offset
    {
      var x := ReadFloat(buf, v);
      if x.Err? {
        ChainFail(DecodeFloat, buf.data, v, offs, items, n);
        return Err(x.error);
      }
      ChainExtend(DecodeFloat, buf.data, v, offs, items, x.value, buf.offset);
      items, offs := items + [x.value], offs + [buf.offset];
    }
    ChainDone(DecodeFloat, buf.data, v, offs, items);
    r := Ok(items);
  }
}
