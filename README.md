# NatNet codec and client, modelled in Dafny

This project models `python_natnet`, a Python client for NatNet. NatNet is the
UDP protocol OptiTrack's Motive software uses to stream motion-capture data.
The model covers:

- **The binary codec** (`src/natnet/protocol`).
  - Message ids and the protocol `Version`.
  - The `ParseBuffer` cursor, including its quirks:
    - `unpack_cstr(0)` behaves like an unsized read;
    - a sized string never fails;
    - `unpack_bytes` clips its slice.
  - One decoder per message: Connect, ServerInfo (with ConnectionInfo),
    EchoRequest, EchoResponse, RequestModelDefinitions, ModelDefinitions and
    MocapFrame, with all of their version gates.
- **The older copy of the codec** in `optitrack/protocol.py`. Its message
  numbering, string reading and frame trailer differ from the current codec.
- **The deterministic part of the client** (`src/natnet/comms.py`):
  - waiting for a packet with a given id;
  - the rigid-body name table built from model definitions;
  - the duplicate-id warning;
  - the `spin` dispatch loop.
- **The two demo applications.**
  - `natnet-client-demo.py`: choosing a frame source, printing one line per
    body, and the once-a-second heartbeat of quiet mode.
  - `natnet_Romi_demo.py`: the robot demo that keeps the last body's pose.

Every decoder is written twice:

- as a pure function `DecodeX(d, off, v)` that returns a `Result` of the value
  and the offset after it;
- as a method `ReadX(buf, v)` that advances a `ParseBuffer` the way the Python
  `deserialize` classmethod does.

The method is proved to agree with the function. The properties are proved as
lemmas about the functions: layouts, version gates, round trips with `serialize`
where the source has one, and the differences between the two codecs.

Bytes are integers 0..255. IEEE-754 floats stay as opaque 4- or 8-byte words.
Integers are little-endian, as `struct` gives them.

Where a description of the system and the code disagree, the model follows the
code:

- The quiet mode's last-print time starts at 0, not at a "never printed" value.
  It holds a number like any other reading.
- Within one `callback_quiet` call the clock is read twice: one reading is
  compared and the other is stored.
- The fake-or-server choice is made by comparing the server name with the
  string `fake`.

## Model

| member | source | states |
|---|---|---|
| IntFormats.PackUInt | src/natnet/protocol/common.py:33-35 | packing an unsigned integer into `n` bytes succeeds iff it is in 0..256^n-1, and the bytes read back as it |
| IntFormats.UIntToLE | src/natnet/protocol/common.py:33-35 | the little-endian encoding of a value in `n` bytes has exactly `n` bytes |
| IntFormats.UIntLEBound | src/natnet/protocol/common.py:33-35 | an unsigned little-endian field of `k` bytes is below 256^k |
| IntFormats.UIntRoundTrip | src/natnet/protocol/common.py:33-35 | encoding a value that fits and reading it back gives the value |
| IntFormats.BytesRoundTrip | src/natnet/protocol/common.py:33-35 | reading any byte string and encoding it again at its width gives the same bytes |
| IntFormats.UInt16Value | src/natnet/protocol/common.py:33 | `<H` is the low byte plus 256 times the high byte |
| IntFormats.UInt32Value | src/natnet/protocol/common.py:34 | `<I` is the four bytes weighted 1, 256, 65536, 16777216 |
| IntFormats.Int16Value | src/natnet/protocol/common.py:32 | `<h` is the unsigned value, minus 65536 when the high byte's top bit is set |
| IntFormats.IntLERange | src/natnet/protocol/common.py:32 | a signed little-endian field lies in the two's-complement range of its width |
| IntFormats.MinusOneInt32 | src/natnet/protocol/ModelDefinitionsMessage.py:47 | four 0xFF bytes read as the signed 32-bit value -1 |
| IntFormats.LowFlagBits | src/natnet/protocol/MocapFrameMessage.py:181-197 | bits 0..2 of a signed 16-bit word are bits 0..2 of its first byte |
| IntFormats.FlagBitsOfMultiple | src/natnet/protocol/MocapFrameMessage.py:185 | adding a multiple of 256 changes none of the low three bits, negative values included |
| IntFormats.MinusOneFlags | src/natnet/protocol/MocapFrameMessage.py:181-197 | every low flag bit of -1 is set |
| Common.FromCode | src/natnet/protocol/common.py:8-27 | `MessageId(c)` gives the id whose code is `c`, and fails iff no id has that code |
| Common.CodeInjective | src/natnet/protocol/common.py:12-27 | distinct ids have distinct codes, so `FromCode` inverts `Code` |
| Common.VersionOrder | src/natnet/protocol/common.py:85-89 | version comparison is a strict total order, and `<=` is its reflexive closure |
| Common.VersionDefaults | src/natnet/protocol/common.py:93-94 | minor, build and revision default to 0 |
| Common.Version3Comparisons | test/test_NatNetVersion.py:23-33 | 2.0, 2.3, 2.6, 2.9 and 2.11 are all at most 3.0, 2.0 is below 3.0, and 3.0 is not below itself |
| Common.Slice | src/natnet/protocol/common.py:64-66 | a Python slice is never longer than asked for, equals the Dafny slice inside the buffer, and is clipped at its end |
| Common.Field | src/natnet/protocol/common.py:52-57 | a fixed-size read succeeds iff enough bytes remain, gives exactly those bytes, and moves past them |
| Common.BeforeNul | src/natnet/protocol/common.py:70 | `partition(b'\0')[0]` is never longer than its input |
| Common.BeforeNulPrefix | src/natnet/protocol/common.py:70 | the head of `partition` is a NUL-free prefix, followed by a NUL unless it is the whole input |
| Common.BeforeNulOfTerminated | src/natnet/protocol/common.py:70 | a NUL-free string followed by a NUL and anything else partitions back to the string |
| Common.BeforeNulOfNoNul | src/natnet/protocol/common.py:70 | a NUL-free string partitions to itself |
| Common.RawBytes | src/natnet/protocol/common.py:78-82 | `unpack_bytes` always moves `size` bytes, is full length iff the buffer holds them, and is then exactly those bytes |
| Common.Code | src/natnet/protocol/common.py:8-27 | the value of each `MessageId`: 0..14 in declaration order and 256 for UnrecognizedRequest; its properties are in `FromCode` and `CodeInjective` |
| Common.UIntField | src/natnet/protocol/common.py:52-57 | `unpack` of `<H`, `<I` or `<Q`: the little-endian value of the bytes `Field` reads; see `UInt16Value` and `UInt32Value` |
| Common.IntField | src/natnet/protocol/common.py:52-57 | `unpack` of `<h` or `<i`: the two's-complement value of the bytes `Field` reads; see `Int16Value` and `IntLERange` |
| Common.BoolField | src/natnet/protocol/common.py:52-57 | `unpack(bool_t)`: one byte, true iff it is not 0 |
| Common.CStr | src/natnet/protocol/common.py:59-76 | `unpack_cstr(size)` of either codec, with `size` 0 taken as no size; its properties are in `FreeCStrLayout`, `SizedCStrLayout` and `LegacyCStrLayout` |
| Common.ParseBuffer.Len | src/natnet/protocol/common.py:48-50 | `__len__`: the data length minus the offset; `Unpack` states how it shrinks |
| Common.Since | src/natnet/protocol/MocapFrameMessage.py:88 | `version >= Version(major, minor)`, by the order of `VersionOrder` |
| Common.SinceOrUnknown | src/natnet/protocol/MocapFrameMessage.py:99 | `version >= Version(major, minor) or version.major == 0` |
| Common.DecodeVersion | src/natnet/protocol/common.py:96-98 | reading a version succeeds iff four bytes remain, and consumes four |
| Common.SerializeVersion | src/natnet/protocol/common.py:100-101 | `pack('BBBB')` succeeds iff every component is a byte, and then gives four bytes |
| Common.Repeat | src/natnet/protocol/MocapFrameMessage.py:46 | a list comprehension over `range(n)` that succeeds has exactly `n` elements |
| Common.ChainExtend | src/natnet/protocol/MocapFrameMessage.py:46 | one more successful element read extends the partial result of the loop |
| Common.ChainDone | src/natnet/protocol/MocapFrameMessage.py:46 | a loop that read all `n` elements computed the list comprehension |
| Common.ChainFail | src/natnet/protocol/MocapFrameMessage.py:46 | a loop stopped by a failing element fails with that element's error |
| Common.RepeatFixedWidth | src/natnet/protocol/MocapFrameMessage.py:86-90 | `n` reads of a `k`-byte field succeed iff `n*k` bytes remain, and consume exactly `n*k` |
| Common.CountedOf | src/natnet/protocol/MocapFrameMessage.py:45-46 | a uint32 count followed by that many elements is a counted list |
| Common.RepeatAll | src/natnet/protocol/MocapFrameMessage.py:46 | a property every decoded element has holds for every element of the list |
| Common.CountedLength | src/natnet/protocol/MocapFrameMessage.py:318-319 | a counted list has as many elements as its leading uint32 says |
| Common.Counted | src/natnet/protocol/MocapFrameMessage.py:45-46 | a uint32 count, then that many elements; its properties are in `CountedLength` and `CountedOf` |
| Common.GatedCounted | src/natnet/protocol/MocapFrameMessage.py:327-331 | a counted list when the version gate holds, and otherwise `[]` read without consuming a byte; see `GatedCountedLayout` |
| Common.GatedCountedLayout | src/natnet/protocol/MocapFrameMessage.py:327-348 | with its gate open, a gated list holds as many elements as the uint32 at its start; with it closed, it is empty and ends where it started |
| Common.Optional | src/natnet/protocol/MocapFrameMessage.py:94-101 | a field read only when its gate holds, and otherwise `None` with no byte consumed |
| Common.FreeCStrLayout | src/natnet/protocol/common.py:64-76 | an unsized string is the NUL-free bytes up to the first NUL, the cursor moves one past them, and both codecs agree |
| Common.SizedCStrLayout | src/natnet/protocol/common.py:65-74 | a sized string always moves `size` bytes and is the window up to its first NUL, or the whole window |
| Common.FreeCStrOfTerminated | src/natnet/protocol/common.py:64-76 | a NUL-terminated NUL-free string reads back as itself and moves past its NUL |
| Common.LegacyCStrIgnoresWindow | optitrack/protocol.py:65-71 | on bytes `AB` with a 1-byte window, the current codec reads `A` and the older copy reads `AB`, and both move one byte |
| Common.LegacyCStrLayout | optitrack/protocol.py:65-76 | the older copy's sized string is the rest of the buffer up to its first NUL, and the cursor still moves `size` |
| Common.VersionRoundTrip | src/natnet/protocol/common.py:91-101 | a serialised version reads back as itself and consumes four bytes |
| Common.VersionBytesRoundTrip | src/natnet/protocol/common.py:91-101 | any four bytes read as a version serialise back to those bytes |
| Common.ParseBuffer.constructor | src/natnet/protocol/common.py:44-46 | a new cursor over the data starts at offset 0 |
| Common.ParseBuffer.OfLegacy | optitrack/protocol.py:49-51 | the older copy's cursor also starts at offset 0 |
| Common.ParseBuffer.Unpack | src/natnet/protocol/common.py:48-57 | `unpack` agrees with `Field`, shrinks `len` by the size, and moves nothing when it raises |
| Common.ParseBuffer.UnpackUInt | src/natnet/protocol/common.py:52-57 | unpacking an unsigned field agrees with its specification |
| Common.ParseBuffer.UnpackInt | src/natnet/protocol/common.py:52-57 | unpacking a signed field agrees with its specification |
| Common.ParseBuffer.UnpackBool | src/natnet/protocol/common.py:52-57 | unpacking `?` agrees with its specification |
| Common.ParseBuffer.UnpackCstr | src/natnet/protocol/common.py:59-76 | `unpack_cstr` returns the string of the cursor's codec and moves to where that string ends |
| Common.ParseBuffer.UnpackBytes | src/natnet/protocol/common.py:78-82 | `unpack_bytes` returns the clipped slice and moves `size` bytes |
| Common.ReadVersion | src/natnet/protocol/common.py:96-98 | `Version.deserialize` agrees with `DecodeVersion` |
| Common.ReadFloat | src/natnet/protocol/common.py:36 | a `<f` read agrees with its specification |
| Common.ReadDouble | src/natnet/protocol/common.py:37 | a `<d` read agrees with its specification |
| Common.ReadVector3 | src/natnet/protocol/common.py:38 | a `<fff` read agrees with its specification |
| Common.ReadQuaternion | src/natnet/protocol/common.py:39 | a `<ffff` read agrees with its specification |
| Common.ReadVector3s | src/natnet/protocol/MocapFrameMessage.py:46 | the loop reading `n` positions computes `Repeat` of the position decoder |
| Common.ReadUInt32s | src/natnet/protocol/MocapFrameMessage.py:208 | the loop reading `n` uint32 values computes `Repeat` of that decoder |
| Common.ReadFloats | src/natnet/protocol/MocapFrameMessage.py:90 | the loop reading `n` floats computes `Repeat` of that decoder |
| MocapFrame.SerializeVector3s | src/natnet/protocol/MocapFrameMessage.py:51 | `n` serialised positions occupy 12n bytes |
| MocapFrame.DecodeMarkerset | src/natnet/protocol/MocapFrameMessage.py:41-47 | `Markerset.deserialize`: a free-length name, then a counted list of positions; see `MarkersetRoundTrip` |
| MocapFrame.DecodeMarkerDetails | src/natnet/protocol/MocapFrameMessage.py:88-90 | the version-2 marker ids and sizes, `n` of each; see `MarkerDetailsLayout` |
| MocapFrame.DecodeMarkerBlock | src/natnet/protocol/MocapFrameMessage.py:83-92 | the pre-3 marker block: a count, the positions, the version-2 details and a padding word, read and dropped except for the count; see `MarkerBlockLayout` |
| MocapFrame.DecodeRigidBody | src/natnet/protocol/MocapFrameMessage.py:76-103 | `RigidBody.deserialize`: id, position, orientation, the pre-3 marker block, the mean error from 2.0 and params from 2.6 or version 0; see `RigidBodyLayout` |
| MocapFrame.DecodeSkeleton | src/natnet/protocol/MocapFrameMessage.py:127-133 | `Skeleton.deserialize`: an id and a counted list of rigid bodies; see `SkeletonLayout` |
| MocapFrame.DecodeLabelledMarker | src/natnet/protocol/MocapFrameMessage.py:159-179 | `LabelledMarker.deserialize`: marker id, model id, position, size, then params and residual under their gates; see `LabelledMarkerLayout` |
| MocapFrame.DecodeAnalogChannelData | src/natnet/protocol/MocapFrameMessage.py:205-209 | `AnalogChannelData.deserialize`: a counted list of uint32 values |
| MocapFrame.DecodeDevice | src/natnet/protocol/MocapFrameMessage.py:218-223 | `Device.deserialize`: an id and a counted list of channels |
| MocapFrame.DecodeTimestamp | src/natnet/protocol/MocapFrameMessage.py:256-259 | the software timestamp: a double from 2.7, a float before |
| MocapFrame.DecodeTimingInfo | src/natnet/protocol/MocapFrameMessage.py:250-270 | `TimingInfo.deserialize`; see `TimingInfoLayout` |
| MocapFrame.DecodeFrameBody | src/natnet/protocol/MocapFrameMessage.py:316-353 | the frame from its number up to its params word; see `FrameBodyLayout` |
| MocapFrame.DecodeMocapFrame | src/natnet/protocol/MocapFrameMessage.py:304-359 | `MocapFrameMessage.deserialize`: the body, then a trailing uint32 that is dropped; see `LegacyFrameSkipsTrailer` |
| MocapFrame.TrackingValid | src/natnet/protocol/MocapFrameMessage.py:105-109 | bit 0 of a rigid body's params, and the assertion's error when there are none; see `FlagsNeedParams` and `RigidBodyFlagsFromWire` |
| MocapFrame.Occluded | src/natnet/protocol/MocapFrameMessage.py:181-185 | bit 0 of a marker's params, or the assertion's error; see `MarkerFlagsFromWire` |
| MocapFrame.PointCloudSolved | src/natnet/protocol/MocapFrameMessage.py:187-191 | bit 1 of a marker's params, or the assertion's error |
| MocapFrame.ModelSolved | src/natnet/protocol/MocapFrameMessage.py:193-197 | bit 2 of a marker's params, or the assertion's error |
| MocapFrame.IsRecording | src/natnet/protocol/MocapFrameMessage.py:361-365 | bit 0 of the frame's params word; see `FrameFlags` and `FrameFlagsFromWire` |
| MocapFrame.TrackedModelsChanged | src/natnet/protocol/MocapFrameMessage.py:367-371 | bit 1 of the frame's params word; see `FrameFlags` and `FrameFlagsFromWire` |
| MocapFrame.HasSkeletons | src/natnet/protocol/MocapFrameMessage.py:328 | the skeleton gate `version > Version(2)`, strict unlike the others |
| MocapFrame.MarkerBlockSize | src/natnet/protocol/MocapFrameMessage.py:85-92 | the bytes of a pre-3 marker block of `n` markers: count, 12 per position, 8 per marker from 2.0, padding |
| MocapFrame.RigidBodySize | src/natnet/protocol/MocapFrameMessage.py:79-101 | the bytes of a rigid body: 32 fixed, the marker block before 3, 4 from 2.0 and 2 from 2.6 or version 0 |
| MocapFrame.TimingInfoSize | src/natnet/protocol/MocapFrameMessage.py:253-267 | the bytes of timing information: 8, then 8 or 4 for the timestamp, then 24 from 3.0 or version 0 |
| MocapFrame.SerializeMarkerset | src/natnet/protocol/MocapFrameMessage.py:49-51 | `Markerset.serialize` fails iff the count does not fit a uint32, and is the name, a NUL, 4 count bytes and 12 bytes per marker |
| MocapFrame.MarkerDetailsLayout | src/natnet/protocol/MocapFrameMessage.py:88-90 | the version-2 marker ids and sizes take 8 bytes per marker |
| MocapFrame.MarkerBlockLayout | src/natnet/protocol/MocapFrameMessage.py:83-92 | a pre-3 marker block reports its count and spans the size its count and version give |
| MocapFrame.RigidBodyLayout | src/natnet/protocol/MocapFrameMessage.py:77-103 | a rigid body's id is its first uint32 and it spans the size its version and marker count give; mean error is there iff the version is at least 2.0, params iff at least 2.6 or the version is 0 |
| MocapFrame.RigidBodyFixedSize | src/natnet/protocol/MocapFrameMessage.py:77-103 | from version 3, a rigid body succeeds iff its fixed number of bytes remain |
| MocapFrame.SkeletonLayout | src/natnet/protocol/MocapFrameMessage.py:127-133 | a skeleton's id is its first uint32, and it has as many bodies as its count says |
| MocapFrame.LabelledMarkerLayout | src/natnet/protocol/MocapFrameMessage.py:159-179 | the marker id, model id, position and size lie at fixed offsets; params and residual are there exactly under their version gates, and that fixes the size |
| MocapFrame.TimingInfoLayout | src/natnet/protocol/MocapFrameMessage.py:250-270 | timing info succeeds iff its fixed size remains; the timestamp is a double from 2.7, and the three camera timestamps are there iff the version is at least 3 or unknown |
| MocapFrame.FrameBodyLayout | src/natnet/protocol/MocapFrameMessage.py:316-353 | each section starts where the one before it ended; the frame number is the first uint32; markersets, unlabelled markers and rigid bodies each hold as many elements as the uint32 at their start; skeletons (above 2), labelled markers (from 2.3), force plates (from 2.9) and devices (from 2.11) do the same when their gate is open, and otherwise are empty and consume no byte; the timing information follows, then the int16 params word, and the body ends after it |
| MocapFrame.MarkerFlagsFromWire | src/natnet/protocol/MocapFrameMessage.py:170-197 | `occluded`, `point_cloud_solved` and `model_solved` are bits 0, 1 and 2 of the first params byte on the wire |
| MocapFrame.FlagsNeedParams | src/natnet/protocol/MocapFrameMessage.py:105-197 | each flag property fails its assertion exactly when the params word is absent |
| MocapFrame.FrameFlags | src/natnet/protocol/MocapFrameMessage.py:361-371 | for every params value, negative ones included, `is_recording` is its parity and `tracked_models_changed` the parity of its half |
| MocapFrame.ParamsLowBit | src/natnet/protocol/MocapFrameMessage.py:102-109 | bit 0 of an int16 params word read at an offset is bit 0 of the byte at that offset |
| MocapFrame.RigidBodyFlagsFromWire | src/natnet/protocol/MocapFrameMessage.py:77-109 | where a rigid body carries params (2.6 or version 0), `tracking_valid` is bit 0 of the byte two before the body's end |
| MocapFrame.FrameFlagsFromWire | src/natnet/protocol/MocapFrameMessage.py:353-371 | `is_recording` and `tracked_models_changed` are bits 0 and 1 of the first byte of the params word the frame was read from |
| MocapFrame.RecordedMarkerFlags | tests/test_MocapFrameMessage.py:38-46 | params 10 and 18 mean point-cloud solved, not occluded and not model solved |
| MocapFrame.Vector3sRoundTrip | src/natnet/protocol/MocapFrameMessage.py:46-51 | serialised positions read back as themselves and consume 12 bytes each |
| MocapFrame.MarkersetOf | src/natnet/protocol/MocapFrameMessage.py:41-47 | a name followed by a counted list of positions is the markerset they form |
| MocapFrame.MarkersetFromParts | src/natnet/protocol/MocapFrameMessage.py:41-47 | a NUL-terminated name, the right count and the serialised positions decode to the markerset |
| MocapFrame.CountedVector3sRoundTrip | src/natnet/protocol/MocapFrameMessage.py:45-51 | a uint32 count and that many serialised positions read back as the positions |
| MocapFrame.SerializedMarkersetParts | src/natnet/protocol/MocapFrameMessage.py:49-51 | where the name, the count and the positions lie in a serialised markerset |
| MocapFrame.MarkersetRoundTrip | src/natnet/protocol/MocapFrameMessage.py:41-51 | `deserialize(serialize(m)) == m` for a NUL-free name, whatever follows in the buffer |
| MocapFrame.ReadMarkerset | src/natnet/protocol/MocapFrameMessage.py:41-47 | `Markerset.deserialize` agrees with `DecodeMarkerset` |
| MocapFrame.ReadMarkersets | src/natnet/protocol/MocapFrameMessage.py:319 | the markerset loop computes `Repeat` of `DecodeMarkerset` |
| MocapFrame.ReadMarkerBlock | src/natnet/protocol/MocapFrameMessage.py:83-92 | reading a pre-3 marker block agrees with `DecodeMarkerBlock` |
| MocapFrame.ReadRigidBody | src/natnet/protocol/MocapFrameMessage.py:76-103 | `RigidBody.deserialize` agrees with `DecodeRigidBody` |
| MocapFrame.ReadRigidBodies | src/natnet/protocol/MocapFrameMessage.py:325 | the rigid-body loop computes `Repeat` of `DecodeRigidBody` |
| MocapFrame.ReadSkeleton | src/natnet/protocol/MocapFrameMessage.py:127-133 | `Skeleton.deserialize` agrees with `DecodeSkeleton` |
| MocapFrame.ReadSkeletons | src/natnet/protocol/MocapFrameMessage.py:331 | the skeleton loop computes `Repeat` of `DecodeSkeleton` |
| MocapFrame.ReadLabelledMarker | src/natnet/protocol/MocapFrameMessage.py:159-179 | `LabelledMarker.deserialize` agrees with `DecodeLabelledMarker` |
| MocapFrame.ReadLabelledMarkers | src/natnet/protocol/MocapFrameMessage.py:337 | the labelled-marker loop computes `Repeat` of `DecodeLabelledMarker` |
| MocapFrame.ReadAnalogChannelData | src/natnet/protocol/MocapFrameMessage.py:205-209 | `AnalogChannelData.deserialize` agrees with its specification |
| MocapFrame.ReadAnalogChannels | src/natnet/protocol/MocapFrameMessage.py:222 | the channel loop computes `Repeat` of the channel decoder |
| MocapFrame.ReadDevice | src/natnet/protocol/MocapFrameMessage.py:218-223 | `Device.deserialize` agrees with `DecodeDevice` |
| MocapFrame.ReadDevices | src/natnet/protocol/MocapFrameMessage.py:348 | the device loop computes `Repeat` of `DecodeDevice` |
| MocapFrame.ReadTimingInfo | src/natnet/protocol/MocapFrameMessage.py:250-270 | `TimingInfo.deserialize` agrees with `DecodeTimingInfo` |
| MocapFrame.ReadSkeletonSection | src/natnet/protocol/MocapFrameMessage.py:327-331 | the skeleton section is a counted list above version 2, and empty otherwise |
| MocapFrame.ReadLabelledMarkerSection | src/natnet/protocol/MocapFrameMessage.py:333-337 | the labelled-marker section is a counted list from 2.3, and empty otherwise |
| MocapFrame.ReadDeviceSection | src/natnet/protocol/MocapFrameMessage.py:339-348 | a force-plate or device section is a counted list when its gate holds, and empty otherwise |
| MocapFrame.ReadFrameBody | src/natnet/protocol/MocapFrameMessage.py:316-353 | the body of `MocapFrameMessage.deserialize`, up to the params word, agrees with `DecodeFrameBody` |
| MocapFrame.ReadMocapFrame | src/natnet/protocol/MocapFrameMessage.py:304-359 | `MocapFrameMessage.deserialize`, trailer included, agrees with `DecodeMocapFrame` |
| ModelDefinitions.NameHasNoNul | src/natnet/protocol/ModelDefinitionsMessage.py:24 | a name read with `unpack_cstr()` holds no NUL |
| ModelDefinitions.TagOf | src/natnet/protocol/ModelDefinitionsMessage.py:117-121 | the `ModelType` tag a decoded description was read under; see `ModelDispatch` |
| ModelDefinitions.DecodeName | src/natnet/protocol/ModelDefinitionsMessage.py:26 | one `unpack_cstr()` of a name list, which never fails |
| ModelDefinitions.DecodeMarkerSetDescription | src/natnet/protocol/ModelDefinitionsMessage.py:22-27 | `MarkerSetDescription.deserialize`: a name and a counted list of names; see `MarkerSetDescriptionLayout` |
| ModelDefinitions.SkipMarkers | src/natnet/protocol/ModelDefinitionsMessage.py:55-57 | the `skip_markers` argument, defaulting to `version < Version(3)` when it is None |
| ModelDefinitions.DecodeMarkerList | src/natnet/protocol/ModelDefinitionsMessage.py:58-60 | a count, that many positions, then that many active labels; see `MarkerListLayout` |
| ModelDefinitions.DecodeRigidBodyDescription | src/natnet/protocol/ModelDefinitionsMessage.py:40-62 | `RigidBodyDescription.deserialize`; see `RigidBodyDescriptionLayout` |
| ModelDefinitions.DecodeSkeletonBone | src/natnet/protocol/ModelDefinitionsMessage.py:77-78 | a bone: a rigid body description with `skip_markers=True` |
| ModelDefinitions.RangeLength | src/natnet/protocol/ModelDefinitionsMessage.py:76-78 | the iterations of `range(count)` for a signed count: none when it is not positive |
| ModelDefinitions.DecodeSkeletonDescription | src/natnet/protocol/ModelDefinitionsMessage.py:72-79 | `SkeletonDescription.deserialize`; see `SkeletonDescriptionLayout` |
| ModelDefinitions.DecodeModel | src/natnet/protocol/ModelDefinitionsMessage.py:139-151 | one tag and the description it selects; see `ModelDispatch` |
| ModelDefinitions.DecodeModelDefinitions | src/natnet/protocol/ModelDefinitionsMessage.py:133-153 | `ModelDefinitionsMessage.deserialize`; see `ModelDefinitionsLayout` and `EmptyModelDefinitions` |
| ModelDefinitions.MarkerSetDescriptionLayout | src/natnet/protocol/ModelDefinitionsMessage.py:22-27 | a marker set has as many marker names as its count says, and every name is NUL-free |
| ModelDefinitions.NamesHaveNoNul | src/natnet/protocol/ModelDefinitionsMessage.py:26 | every name in a list of unsized strings is NUL-free |
| ModelDefinitions.MarkerListLayout | src/natnet/protocol/ModelDefinitionsMessage.py:57-60 | a rigid body's marker block has as many positions as active labels, both equal to its count |
| ModelDefinitions.RigidBodyDescriptionLayout | src/natnet/protocol/ModelDefinitionsMessage.py:40-62 | the name is there iff the version is at least 2; id and signed parent id follow; the marker lists are empty when skipped and otherwise both as long as the count |
| ModelDefinitions.RootParentId | tests/test_ModelDefinitionsMessage.py:23 | a parent id of four 0xFF bytes decodes as -1 |
| ModelDefinitions.SkeletonDescriptionLayout | src/natnet/protocol/ModelDefinitionsMessage.py:72-79 | a skeleton's id is signed, it has one bone per iteration of `range(count)`, and no bone carries markers |
| ModelDefinitions.ModelDispatch | src/natnet/protocol/ModelDefinitionsMessage.py:138-151 | a description is of the kind its tag names; tags 3 and 4 raise NotImplemented and larger tags are unknown types |
| ModelDefinitions.ModelDefinitionsLayout | src/natnet/protocol/ModelDefinitionsMessage.py:134-153 | the message has as many models as its definition count says |
| ModelDefinitions.EmptyModelDefinitions | src/natnet/protocol/ModelDefinitionsMessage.py:135-138 | a zero count decodes to an empty message that consumes only the count |
| ModelDefinitions.ReadNames | src/natnet/protocol/ModelDefinitionsMessage.py:26 | the name loop never fails and computes `Repeat` of the name decoder |
| ModelDefinitions.ReadMarkerSetDescription | src/natnet/protocol/ModelDefinitionsMessage.py:22-27 | `MarkerSetDescription.deserialize` agrees with its specification |
| ModelDefinitions.ReadRigidBodyDescription | src/natnet/protocol/ModelDefinitionsMessage.py:40-62 | `RigidBodyDescription.deserialize` agrees with its specification, for every `skip_markers` |
| ModelDefinitions.ReadSkeletonBones | src/natnet/protocol/ModelDefinitionsMessage.py:77-78 | the bone loop computes `Repeat` of the bone decoder |
| ModelDefinitions.ReadSkeletonDescription | src/natnet/protocol/ModelDefinitionsMessage.py:72-79 | `SkeletonDescription.deserialize` agrees with its specification |
| ModelDefinitions.ReadModel | src/natnet/protocol/ModelDefinitionsMessage.py:139-151 | one iteration of the dispatch loop agrees with `DecodeModel` |
| ModelDefinitions.ReadModelDefinitions | src/natnet/protocol/ModelDefinitionsMessage.py:133-153 | `ModelDefinitionsMessage.deserialize` agrees with `DecodeModelDefinitions` |
| ServerInfo.Decimal | src/natnet/protocol/ServerInfoMessage.py:25-29 | `str(n)` is a non-empty string of decimal digits |
| ServerInfo.DottedQuad | src/natnet/protocol/ServerInfoMessage.py:29 | the four numerals joined by dots, as `inet_ntoa` writes them; see `DottedQuadInjective` |
| ServerInfo.ServerInfoSize | src/natnet/protocol/ServerInfoMessage.py:48-56 | the bytes of a ServerInfo payload: the 256-byte name and two versions, plus the clock and connection info from 3.0 |
| ServerInfo.DecodeConnectionInfo | src/natnet/protocol/ServerInfoMessage.py:18-23 | `ConnectionInfo.deserialize`; see `ConnectionInfoLayout` |
| ServerInfo.DecodeServerInfo | src/natnet/protocol/ServerInfoMessage.py:41-58 | `ServerInfoMessage.deserialize` for either codec; see `ServerInfoLayout` and `AppNameLayout` |
| ServerInfo.MulticastAddress | src/natnet/protocol/ServerInfoMessage.py:25-29 | `inet_ntoa` succeeds iff there are exactly 4 address bytes |
| ServerInfo.DecimalRoundTrip | src/natnet/protocol/ServerInfoMessage.py:29 | the value of the numeral of `n` is `n` |
| ServerInfo.DecimalInjective | src/natnet/protocol/ServerInfoMessage.py:29 | equal numerals come from the same number |
| ServerInfo.DottedQuadInjective | src/natnet/protocol/ServerInfoMessage.py:29 | a dotted quad determines its four numbers |
| ServerInfo.MulticastAddressInjective | src/natnet/protocol/ServerInfoMessage.py:25-29 | the dotted address determines the 4 address bytes |
| ServerInfo.RecordedNumerals | tests/test_ServerInfoMessage.py:19 | the numerals of 239, 255, 42 and 99 |
| ServerInfo.RecordedMulticastAddress | tests/test_ServerInfoMessage.py:19 | address bytes 239, 255, 42, 99 give `239.255.42.99` |
| ServerInfo.ConnectionInfoLayout | src/natnet/protocol/ServerInfoMessage.py:18-23 | reading succeeds iff port and flag fit; the port is the first uint16, the flag the next byte, and the address the next 4 raw bytes |
| ServerInfo.ServerInfoLayout | src/natnet/protocol/ServerInfoMessage.py:41-58 | fails only when the fixed fields do not fit; consumes 264 bytes before version 3 and 279 from it; clock and connection info are there iff the version is at least 3; the versions sit at bytes 256..263 |
| ServerInfo.AppNameLayout | src/natnet/protocol/ServerInfoMessage.py:48 | the current codec takes the app name from the 256-byte window, the older copy from the rest of the buffer |
| ServerInfo.ReadConnectionInfo | src/natnet/protocol/ServerInfoMessage.py:18-23 | `ConnectionInfo.deserialize` agrees with its specification |
| ServerInfo.ReadServerInfo | src/natnet/protocol/ServerInfoMessage.py:41-58 | `ServerInfoMessage.deserialize` agrees with its specification for the cursor's codec |
| Connect.DefaultConnect | src/natnet/protocol/ConnectMessage.py:11-16 | the default message serialises |
| Connect.SerializeConnect | src/natnet/protocol/ConnectMessage.py:32-34 | `ConnectMessage.serialize`; see `SerializedConnectLayout` and `ConnectRoundTrip` |
| Connect.DecodeConnect | src/natnet/protocol/ConnectMessage.py:18-30 | `ConnectMessage.deserialize`; see `ConnectLayout` |
| Connect.Nuls | src/natnet/protocol/ConnectMessage.py:33 | `b'\0' * n` is `n` NULs, and none for `n` not positive |
| Connect.SerializedConnectLayout | src/natnet/protocol/ConnectMessage.py:32-34 | serialise emits the payload, NULs up to 256 bytes (none for a longer payload) and the two versions; 264 bytes for a payload of at most 256 |
| Connect.ConnectLayout | src/natnet/protocol/ConnectMessage.py:18-30 | deserialise fails iff fewer than 264 bytes remain, and consumes exactly 264 |
| Connect.DefaultConnectBytes | src/natnet/protocol/ConnectMessage.py:13-16 | the defaults serialise to 256 NULs and twice 3, 0, 0, 0 |
| Connect.PayloadWindow | src/natnet/protocol/ConnectMessage.py:27 | the 256-byte window of a padded payload reads back as the payload |
| Connect.ConnectRoundTrip | src/natnet/protocol/ConnectMessage.py:19-34 | `deserialize(serialize(m)) == m` for a NUL-free payload of at most 256 bytes |
| Connect.ReadConnect | src/natnet/protocol/ConnectMessage.py:18-30 | `ConnectMessage.deserialize` agrees with its specification |
| EchoRequest.SerializeEchoRequest | src/natnet/protocol/EchoRequestMessage.py:24-25 | serialise succeeds iff the timestamp fits 64 unsigned bits, and gives 8 bytes |
| EchoRequest.DecodeEchoRequest | src/natnet/protocol/EchoRequestMessage.py:14-22 | `EchoRequestMessage.deserialize`; see `EchoRequestLayout` |
| EchoRequest.EchoRequestLayout | src/natnet/protocol/EchoRequestMessage.py:14-22 | deserialise fails iff fewer than 8 bytes remain, consumes 8, and gives a timestamp below 2^64 |
| EchoRequest.EchoRequestRoundTrip | src/natnet/protocol/EchoRequestMessage.py:21-25 | `deserialize(serialize(m)) == m` for every timestamp that packs |
| EchoRequest.EchoRequestBytesRoundTrip | src/natnet/protocol/EchoRequestMessage.py:21-25 | every 8-byte payload serialises back to itself |
| EchoRequest.ReadEchoRequest | src/natnet/protocol/EchoRequestMessage.py:14-22 | `EchoRequestMessage.deserialize` agrees with its specification |
| EchoResponse.SerializeEchoResponse | src/natnet/protocol/EchoResponseMessage.py:26-27 | serialise succeeds iff both timestamps fit 64 unsigned bits, and gives 16 bytes |
| EchoResponse.DecodeEchoResponse | src/natnet/protocol/EchoResponseMessage.py:15-24 | `EchoResponseMessage.deserialize`; see `EchoResponseLayout` |
| EchoResponse.EchoResponseLayout | src/natnet/protocol/EchoResponseMessage.py:15-24 | deserialise fails iff fewer than 16 bytes remain; the request timestamp is the first 8 bytes and the received one the next 8 |
| EchoResponse.EchoResponseFieldsIndependent | src/natnet/protocol/EchoResponseMessage.py:22-23 | each half of the payload decides only its own field |
| EchoResponse.EchoResponseRoundTrip | src/natnet/protocol/EchoResponseMessage.py:22-27 | `deserialize(serialize(m)) == m` for every pair that packs |
| EchoResponse.EchoResponseBytesRoundTrip | src/natnet/protocol/EchoResponseMessage.py:22-27 | every 16-byte payload serialises back to itself |
| EchoResponse.ReadEchoResponse | src/natnet/protocol/EchoResponseMessage.py:15-24 | `EchoResponseMessage.deserialize` agrees with its specification |
| RequestModelDefinitions.RequestModelDefinitionsLayout | src/natnet/protocol/RequestModelDefinitionsMessage.py:9-14 | the message serialises to no bytes, and deserialising always succeeds and consumes nothing |
| RequestModelDefinitions.DecodeRequestModelDefinitions | src/natnet/protocol/RequestModelDefinitionsMessage.py:9-11 | `deserialize`: the message, from any input |
| RequestModelDefinitions.SerializeRequestModelDefinitions | src/natnet/protocol/RequestModelDefinitionsMessage.py:13-14 | `serialize`: no bytes |
| RequestModelDefinitions.RequestModelDefinitionsIgnoresInput | src/natnet/protocol/RequestModelDefinitionsMessage.py:9-11 | deserialising does not depend on the buffer or the version |
| RequestModelDefinitions.RequestModelDefinitionsRoundTrip | src/natnet/protocol/RequestModelDefinitionsMessage.py:9-14 | deserialising the empty serialisation gives the message back |
| RequestModelDefinitions.ReadRequestModelDefinitions | src/natnet/protocol/RequestModelDefinitionsMessage.py:9-11 | `deserialize` agrees with its specification |
| Legacy.LegacyFromCode | optitrack/protocol.py:26-44 | the older `MessageId(c)` gives the id with that code, and fails iff there is none |
| Legacy.LegacyCode | optitrack/protocol.py:26-44 | the older numbering: as the current one except UnrecognizedRequest, which is 100; see `MessageIdsDiverge` |
| Legacy.DecodeLegacyMocapFrame | optitrack/protocol.py:277-323 | the older frame decoder: the frame body over its own cursor, no trailer; see `LegacyFrameSkipsTrailer` |
| Legacy.DecodeLegacyServerInfo | optitrack/protocol.py:356-370 | the older server-info decoder, with its string reading; see `LegacyServerInfoDiverges` |
| Legacy.MessageIdsDiverge | optitrack/protocol.py:26-44 | the two numberings agree on every id except UnrecognizedRequest, which is 100 in the older copy and 256 in the current codec; each numbering is invertible |
| Legacy.LegacyFrameSkipsTrailer | optitrack/protocol.py:277-323 | where the current frame decoder succeeds, the older one gives the same frame; the current one also needs the 4 trailing bytes |
| Legacy.LegacyFrameGates | optitrack/protocol.py:281-313 | the older frame has the same markerset count and the same version gates for skeletons, labelled markers, force plates and devices |
| Legacy.ReadLegacyMocapFrame | optitrack/protocol.py:277-323 | the older frame reader computes `DecodeLegacyMocapFrame` |
| Legacy.BeforeNulSplit | optitrack/protocol.py:71 | `partition` finds a NUL inside the first `k` bytes there, and otherwise continues after them |
| Legacy.LegacyServerInfoDiverges | optitrack/protocol.py:356-370 | both codecs succeed on the same payloads and read the same versions, clock and connection info; the app names agree iff the first 257 bytes hold a NUL |
| Legacy.ReadLegacyServerInfo | optitrack/protocol.py:356-370 | the older server-info reader computes `DecodeLegacyServerInfo` |
| Comms.PacketId | src/natnet/comms.py:86 | the id of a packet is its first two bytes little-endian, and a shorter packet raises |
| Comms.WaitFrom | src/natnet/comms.py:81-88 | the packet returned is the first with the wanted id, every earlier packet had another id, and errors are raised for timeouts or short packets |
| Comms.WaitFindsFirstMatch | src/natnet/comms.py:81-88 | a matching packet preceded only by packets with other ids is the one returned |
| Comms.WaitForPacketWithId | src/natnet/comms.py:81-88 | the discard loop computes `WaitFrom` from the first arrival |
| Comms.RigidBodyDescriptions | src/natnet/comms.py:180 | the filter keeps exactly the rigid-body descriptions and is never longer than the models |
| Comms.RigidBodyDescriptionsAppend | src/natnet/comms.py:180 | the filter keeps the models' order: filtering a concatenation concatenates the filtered parts |
| Comms.LastRigidBodyKept | src/natnet/comms.py:180-181 | a later model that is not a rigid body with id `k` leaves the last rigid body with id `k` in place |
| Comms.NameTableFromModels | src/natnet/comms.py:179-181 | for each id in the table, its name is that of the last rigid body among the models with that id |
| Comms.NameTable | src/natnet/comms.py:181 | the dict comprehension `{m.id_: m.name ...}`, later entries overwriting earlier ones; see `NameTableKeys`, `NameTableLastWins` and `NameTableFromModels` |
| Comms.NameTableKeys | src/natnet/comms.py:181 | the name table has a key for exactly the ids that occur |
| Comms.NameTableLastWins | src/natnet/comms.py:181 | an id maps to the name of the last description with that id |
| Comms.NameTableSize | src/natnet/comms.py:183 | the table is never larger than the list, and is as large iff no id repeats |
| Comms.Ignored | src/natnet/comms.py:184-185 | the ignored names are exactly the description names not among the table's values |
| Comms.IgnoredAppend | src/natnet/comms.py:184-185 | the ignored list keeps description order and repeats: that of `a + b` is that of `a` followed by that of `b` |
| Comms.IgnoredSingle | src/natnet/comms.py:185 | one description adds its name exactly when the name is not among the table's values |
| Comms.InitialState | src/natnet/comms.py:131-137 | a client's state as constructed: no names, no callback, an empty log |
| Comms.HandledModelDefinitions | src/natnet/comms.py:174-187 | `handle_model_definitions` on the client's state; see `ModelDefinitionsEffect` |
| Comms.Step | src/natnet/comms.py:192-215 | one pass of the `spin` loop; see `StepEffect` and `StepLog` |
| Comms.Run | src/natnet/comms.py:189-215 | `spin` over a sequence of arrivals; see `SpinCallsPerFrame`, `SpinKeepsNames` and `SpinNames` |
| Comms.ModelDefinitionsEffect | src/natnet/comms.py:174-187 | the table maps exactly the rigid-body ids, each to the name of the last rigid body in the models with that id; the callback is kept; one warning listing the ignored names is logged iff an id repeats |
| Comms.StepEffect | src/natnet/comms.py:192-215 | one arrival keeps the callback; timeouts, unhandled ids and frames without a callback change nothing; a frame calls the callback and requests definitions iff tracked models changed; definitions replace the table |
| Comms.FrameEvents | src/natnet/comms.py:198-210 | a frame's events hold one callback call and a request exactly when its tracked models changed |
| Comms.DefinitionEvents | src/natnet/comms.py:211-213 | model definitions add neither calls nor requests to the log |
| Comms.StepLog | src/natnet/comms.py:192-215 | one arrival only appends to the log: one call for a frame when a callback is set, and one request when that frame's models changed |
| Comms.SpinCallsPerFrame | src/natnet/comms.py:189-215 | over a whole `spin`, the callback is called once per frame in arrival order, and definitions are requested once per changed frame |
| Comms.SpinKeepsNames | src/natnet/comms.py:211-215 | a `spin` without model definitions keeps the name table |
| Comms.SpinNames | src/natnet/comms.py:211-213 | after a `spin`, the name table comes from the last model definitions received |
| Comms.Client.constructor | src/natnet/comms.py:131-137 | a new client has an empty name table, no callback and an empty log |
| Comms.Client.SetCallback | src/natnet/comms.py:165-169 | `set_callback` replaces the callback and nothing else |
| Comms.Client.HandleModelDefinitions | src/natnet/comms.py:174-187 | the new state is `HandledModelDefinitions` of the old one |
| Comms.Client.Spin | src/natnet/comms.py:189-215 | the dispatch loop leaves the state `Run` gives for the arrivals |
| Poses.Clamp | scripts/natnet-client-demo.py:34-36 | the `t2` clamp lies in [-1, 1], keeps values already there, and sends larger ones to 1 and smaller ones to -1 |
| Poses.ClampIdempotentMonotone | scripts/natnet-client-demo.py:34-36 | clamping twice is clamping once, and clamping keeps order |
| Poses.EulerFromQuaternion | scripts/natnet-client-demo.py:23-43 | pitch is `asin` of an argument in [-1, 1], equal to `2(wy - zx)` when that is already in range; roll and yaw are `atan2` terms |
| Poses.BodyEuler | scripts/natnet-client-demo.py:83 | the angles of a body, from its orientation's four components in order; see `EulerFromQuaternion` |
| ClientDemo.SourceFor | scripts/natnet-client-demo.py:55-59 | the fake source is chosen iff the server name is `fake`, at the requested rate; otherwise the server is the given name |
| ClientDemo.HandlerFor | scripts/natnet-client-demo.py:64-68 | the heartbeat callback is registered iff the app is quiet |
| ClientDemo.QuietPrints | scripts/natnet-client-demo.py:99 | `callback_quiet` prints iff the compared reading is more than a second after the last print |
| ClientDemo.QuietLast | scripts/natnet-client-demo.py:99-101 | `_last_printed` after one call: the stored reading if it printed, else unchanged |
| ClientDemo.Heartbeats | scripts/natnet-client-demo.py:98-101 | the stored readings of the dots printed over a run of calls; see `FirstHeartbeat` and `HeartbeatsApart` |
| ClientDemo.FirstHeartbeat | scripts/natnet-client-demo.py:98-101 | with a clock that does not run backwards within a call, the first heartbeat is more than a second after the start |
| ClientDemo.HeartbeatsApart | scripts/natnet-client-demo.py:98-101 | with that clock, consecutive heartbeats are more than a second apart |
| ClientDemo.BodyLines | scripts/natnet-client-demo.py:82-86 | one line per body |
| ClientDemo.BodyLinesAt | scripts/natnet-client-demo.py:82-86 | line `i` is the id, position and angles of body `i` |
| ClientDemo.LineOf | scripts/natnet-client-demo.py:83-86 | the line of one body: id, position and the angles of its orientation |
| ClientDemo.CallbackLines | scripts/natnet-client-demo.py:80-86 | the lines `callback` prints; see `CallbackLinesShape` |
| ClientDemo.CallbackLinesShape | scripts/natnet-client-demo.py:80-86 | nothing for no bodies; otherwise the header, then line `i+1` for body `i` |
| ClientDemo.ClientApp.constructor | scripts/natnet-client-demo.py:46-52 | the app keeps its client and mode, and `_last_printed` starts at 0 |
| ClientDemo.ClientApp.Run | scripts/natnet-client-demo.py:64-69 | `run` registers the mode's callback and then spins |
| ClientDemo.ClientApp.Callback | scripts/natnet-client-demo.py:71-86 | the printed lines grow by the callback's lines and the timestamp is unchanged |
| ClientDemo.ClientApp.PrintBodyLines | scripts/natnet-client-demo.py:82-86 | the loop prints one line per body, in order |
| ClientDemo.ClientApp.CallbackQuiet | scripts/natnet-client-demo.py:98-101 | a dot is printed, and the second reading stored, iff more than a second has passed since the last dot |
| ClientDemo.Connect | scripts/natnet-client-demo.py:54-62 | there is an app iff a client was obtained, and it starts fresh with that client and mode |
| RomiDemo.FieldsOf | scripts/natnet_Romi_demo.py:75-77 | one body sets the three position fields and the angles of its orientation |
| RomiDemo.RecordedPitch | scripts/natnet_Romi_demo.py:31-33 | the recorded pitch is `asin` of a clamped argument, equal to the raw argument when that is in range |
| RomiDemo.RomiApp.constructor | scripts/natnet_Romi_demo.py:43-46 | the app keeps its client |
| RomiDemo.RomiApp.Run | scripts/natnet_Romi_demo.py:60-63 | `run` sets all six pose fields to 0 |
| RomiDemo.RomiApp.Callback | scripts/natnet_Romi_demo.py:65-77 | no bodies leave the fields unchanged; otherwise the last body's pose wins |
| RomiDemo.ConnectWith | scripts/natnet_Romi_demo.py:52-58 | the call to `Client.connect` raises TypeError iff its argument count differs from the one parameter of comms.py:139-140; otherwise there is an app iff there is a client, and it holds that client |
| RomiDemo.ConnectAsWritten | scripts/natnet_Romi_demo.py:52-58 | with the two arguments of line 55, `ClientApp.connect` always raises TypeError |
| RomiDemo.Connect | scripts/natnet_Romi_demo.py:52-58 | with `server_name` as the only argument, there is an app iff a client was obtained, and it holds that client |

## Left out

- Sockets are left out: `Connection.open`, `bind_data_socket`, `wait_for_packet`, `send_packet`, `__del__` and the `Client.connect` handshake. Arrivals are an input sequence and sent packets are `Sent` events in a log.
- Comms.WaitFrom: where the arrivals run out it returns an `Exhausted` error. The real loop would block waiting for more packets.
- Message framing is not part of this model: `serialize`, `deserialize`, `deserialize_header`, `deserialize_payload` and `register_message`. None of them is defined in the lines of `src/natnet/protocol/common.py` that are modelled (1-101); `src/natnet/protocol/__init__.py:21-22` imports the first four from `.common`, and each message module imports `register_message` from `.common`. Only the 2-byte id of a packet is modelled, and `spin` takes payloads that are already decoded.
- `TimestampAndLatency` and `_convert_server_timestamp` are left out. They are floating-point arithmetic on received times, and the callback is recorded without them.
- IEEE-754 floats and doubles are kept as opaque 4- and 8-byte words. Their numeric values are not modelled.
- `math.atan2` and `math.asin` are kept as symbolic angle terms over their real arguments.
- UTF-8 decoding of strings is left out: names are the raw bytes. `ConnectMessage` counts the payload's characters as bytes, which is right only for ASCII.
- The demo's printing is modelled as `Line` values, not as formatted text. In the client only the duplicate-id warning (comms.py:186-187) is a log event.
- The client's other prints are not recorded: the name table (comms.py:182), 'Timed out waiting for packet' (comms.py:195), 'Tracked models have changed' (comms.py:208), 'Unhandled message type' (comms.py:215) and the progress lines of `Client.connect` (comms.py:141-162). None of them changes the client's state.
- `src/natnet/fakes.py` is not part of this model. The demo asks for a fake client that fakes.py does not define, so the model records only which source is chosen.
- Force-plate and device descriptions in model definitions are modelled only as their NotImplemented error.
- `ModelDefinitionsMessage.py:13` imports `int32_t` from `.common`, whose modelled lines (1-101) define the other struct formats (lines 31-39) but not this one. It is modelled as a signed little-endian 32-bit integer.
- The marker block of a pre-3 rigid body in a frame is read and dropped. Only its count is kept, as the decoded body does not store it.
- Common.ParseBuffer.Len: the older copy's cursor has no `__len__`, but the model defines it for both codecs.
- RomiDemo.RomiApp.constructor: the pose fields do not exist until `run`, so the constructor states nothing about them.
- RomiDemo: the `main` loop and its `spin_once` are left out, and `run` does not spin because those lines are commented out in the source.
- ClientDemo.Connect, RomiDemo.ConnectWith and RomiDemo.Connect take the client that `Client.connect` would produce as a parameter, because the handshake is socket I/O. That client may be null in the model, although `Client.connect` (comms.py:139-162) returns a client or raises; so the `client is None` branches are modelled but cannot be reached in the source.
- RomiDemo.Connect: as written, `ClientApp.connect` at scripts/natnet_Romi_demo.py:55 passes two arguments to the one-parameter `Client.connect` (comms.py:140), so it raises TypeError and never returns an app. The rest of the model uses RomiDemo.Connect, the intended one-argument call; see "## Findings".
- ClientDemo.ClientApp.Run: callback calls are recorded in the client's log. Running `Callback` or `CallbackQuiet` for each of them is not linked to the log.
- ClientDemo.ClientApp.CallbackQuiet: the two `time.time()` readings of one call are inputs, so the clock itself is not modelled.
- `scripts/natnet-client-demo-ros.py`, `scripts/time-sync-demo.py`, `src/natnet/logging.py` and `ModelDefinitionMessage.py` are not part of this model.

## Findings

| source | as written | input that shows it | evidently intended | confidence | as-written member | corrected member |
|---|---|---|---|---|---|---|
| scripts/natnet_Romi_demo.py:55 | `natnet.Client.connect(server_name,True)`, two arguments to the classmethod `connect(cls, server_ip)` of comms.py:139-140 | any server name, such as the `'127.0.0.1'` of line 83: the call raises TypeError before any socket is opened | `natnet.Client.connect(server_name)`, as scripts/natnet-client-demo.py:59 calls it | high; not executed | RomiDemo.ConnectAsWritten | RomiDemo.Connect |
