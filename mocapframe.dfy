/** The FrameOfData payload: markersets, unlabelled markers, rigid bodies,
    skeletons, labelled markers, force plates, devices and timing, each part
    present or shaped according to the protocol version. Each element has a
    specification `DecodeX` over the bytes and a reader `ReadX` that advances
    a `ParseBuffer` and agrees with it. */
module MocapFrame {
  import opened Results
  import opened IntFormats
  import opened Common

  // ------------------------------------------------------------ data model

  datatype Markerset = Markerset(name: Bytes, markers: seq<Vector3Word>)

  datatype RigidBody = RigidBody(
    id: nat,
    position: Vector3Word,
    orientation: QuaternionWord,
    meanError: Option<FloatWord>,
    params: Option<int>)

  datatype Skeleton = Skeleton(id: nat, rigidBodies: seq<RigidBody>)

  datatype LabelledMarker = LabelledMarker(
    modelId: nat,
    markerId: nat,
    position: Vector3Word,
    size: FloatWord,
    params: Option<int>,
    residual: Option<FloatWord>)

  datatype AnalogChannelData = AnalogChannelData(values: seq<nat>)

  /** Force plates and devices share this layout. */
  datatype Device = Device(id: nat, channels: seq<AnalogChannelData>)

  /** The software timestamp is a float_t before 2.7 and a double_t since. */
  datatype Timestamp = Single(single: FloatWord) | Double(double: DoubleWord)

  datatype TimingInfo = TimingInfo(
    timecode: nat,
    timecodeSubframe: nat,
    timestamp: Timestamp,
    cameraMidExposureTimestamp: Option<nat>,
    cameraDataReceivedTimestamp: Option<nat>,
    transmitTimestamp: Option<nat>)

  datatype MocapFrameMessage = MocapFrameMessage(
    frameNumber: nat,
    markersets: seq<Markerset>,
    unlabelledMarkers: seq<Vector3Word>,
    rigidBodies: seq<RigidBody>,
    skeletons: seq<Skeleton>,
    labelledMarkers: seq<LabelledMarker>,
    forcePlates: seq<Device>,
    devices: seq<Device>,
    timingInfo: TimingInfo,
    params: int)

  // ------------------------------------------------- decoders, as specification

  /** `Markerset.deserialize`: a free-length name, then a counted list of positions. */
  function DecodeMarkerset(d: Bytes, off: nat, v: Version): Result<Parsed<Markerset>>
  {
    var name := CStr(Current, d, off, 0);
    var markers :- Counted(DecodeVector3, d, name.next, v);
    Ok(Parsed(Markerset(name.value, markers.value), markers.next))
  }

  /** Marker ids and sizes of the per-body marker block (version 2.x). */
  function DecodeMarkerDetails(d: Bytes, off: nat, v: Version, n: nat): Result<Parsed<nat>>
  {
    var ids :- Repeat(DecodeUInt32, d, off, v, n);
    var sizes :- Repeat(DecodeFloat, d, ids.next, v, n);
    Ok(Parsed(n, sizes.next))
  }

  /** The marker block a rigid body carries before version 3: a count, the
      positions, ids and sizes from version 2 on, and a padding word. It is
      read and dropped; its value is the marker count. */
  function DecodeMarkerBlock(d: Bytes, off: nat, v: Version): Result<Parsed<nat>>
  {
    var count :- DecodeUInt32(d, off, v);
    var positions :- Repeat(DecodeVector3, d, count.next, v, count.value);
    var details :-
      if Since(v, 2, 0) then DecodeMarkerDetails(d, positions.next, v, count.value)
      else Ok(Parsed(count.value, positions.next));
    var padding :- DecodeUInt32(d, details.next, v);
    Ok(Parsed(count.value, padding.next))
  }

  /** `RigidBody.deserialize`. */
  function DecodeRigidBody(d: Bytes, off: nat, v: Version): Result<Parsed<RigidBody>>
  {
    var id :- DecodeUInt32(d, off, v);
    var position :- DecodeVector3(d, id.next, v);
    var orientation :- DecodeQuaternion(d, position.next, v);
    var block :-
      if Less(v, MakeVersion(3)) then DecodeMarkerBlock(d, orientation.next, v)
      else Ok(Parsed(0, orientation.next));
    var meanError :- Optional(Since(v, 2, 0), DecodeFloat, d, block.next, v);
    var params :- Optional(SinceOrUnknown(v, 2, 6), DecodeInt16, d, meanError.next, v);
    Ok(Parsed(RigidBody(id.value, position.value, orientation.value, meanError.value, params.value),
              params.next))
  }

  /** `Skeleton.deserialize`: an id and a counted list of rigid bodies. */
  function DecodeSkeleton(d: Bytes, off: nat, v: Version): Result<Parsed<Skeleton>>
  {
    var id :- DecodeUInt32(d, off, v);
    var bodies :- Counted(DecodeRigidBody, d, id.next, v);
    Ok(Parsed(Skeleton(id.value, bodies.value), bodies.next))
  }

  /** `LabelledMarker.deserialize`: the marker id comes first, then the model id. */
  function DecodeLabelledMarker(d: Bytes, off: nat, v: Version): Result<Parsed<LabelledMarker>>
  {
    var markerId :- DecodeUInt16(d, off, v);
    var modelId :- DecodeUInt16(d, markerId.next, v);
    var position :- DecodeVector3(d, modelId.next, v);
    var size :- DecodeFloat(d, position.next, v);
    var params :- Optional(SinceOrUnknown(v, 2, 6), DecodeInt16, d, size.next, v);
    var residual :- Optional(SinceOrUnknown(v, 3, 0), DecodeFloat, d, params.next, v);
    Ok(Parsed(LabelledMarker(modelId.value, markerId.value, position.value, size.value,
                             params.value, residual.value),
              residual.next))
  }

  /** `AnalogChannelData.deserialize`: a counted list of uint32 values. */
  function DecodeAnalogChannelData(d: Bytes, off: nat, v: Version): Result<Parsed<AnalogChannelData>>
  {
    var values :- Counted(DecodeUInt32, d, off, v);
    Ok(Parsed(AnalogChannelData(values.value), values.next))
  }

  /** `Device.deserialize`: an id and a counted list of channels. */
  function DecodeDevice(d: Bytes, off: nat, v: Version): Result<Parsed<Device>>
  {
    var id :- DecodeUInt32(d, off, v);
    var channels :- Counted(DecodeAnalogChannelData, d, id.next, v);
    Ok(Parsed(Device(id.value, channels.value), channels.next))
  }

  function DecodeTimestamp(d: Bytes, off: nat, v: Version): Result<Parsed<Timestamp>>
  {
    if Since(v, 2, 7) then
      var t :- DecodeDouble(d, off, v);
      Ok(Parsed(Double(t.value), t.next))
    else
      var t :- DecodeFloat(d, off, v);
      Ok(Parsed(Single(t.value), t.next))
  }

  /** Bytes of timing information on the wire. */
  function TimingInfoSize(v: Version): nat
  {
    8 + (if Since(v, 2, 7) then 8 else 4) + (if SinceOrUnknown(v, 3, 0) then 24 else 0)
  }

  /** `TimingInfo.deserialize`. It has a fixed size for a given version and
      fails only when fewer bytes remain. */
  function DecodeTimingInfo(d: Bytes, off: nat, v: Version): Result<Parsed<TimingInfo>>
  {
    var timecode :- DecodeUInt32(d, off, v);
    var subframe :- DecodeUInt32(d, timecode.next, v);
    var timestamp :- DecodeTimestamp(d, subframe.next, v);
    var present := SinceOrUnknown(v, 3, 0);
    var midExposure :- Optional(present, DecodeUInt64, d, timestamp.next, v);
    var dataReceived :- Optional(present, DecodeUInt64, d, midExposure.next, v);
    var transmit :- Optional(present, DecodeUInt64, d, dataReceived.next, v);
    Ok(Parsed(TimingInfo(timecode.value, subframe.value, timestamp.value,
                         midExposure.value, dataReceived.value, transmit.value),
              transmit.next))
  }

  /** Skeletons are on the wire only for versions strictly above 2. */
  predicate HasSkeletons(v: Version)
  {
    Less(MakeVersion(2), v)
  }

  /** The frame up to and including its params word. */
  function DecodeFrameBody(d: Bytes, off: nat, v: Version): Result<Parsed<MocapFrameMessage>>
  {
    var frameNumber :- DecodeUInt32(d, off, v);
    var markersets :- Counted(DecodeMarkerset, d, frameNumber.next, v);
    var unlabelled :- Counted(DecodeVector3, d, markersets.next, v);
    var rigidBodies :- Counted(DecodeRigidBody, d, unlabelled.next, v);
    var skeletons :- GatedCounted(HasSkeletons(v), DecodeSkeleton, d, rigidBodies.next, v);
    var labelled :- GatedCounted(Since(v, 2, 3), DecodeLabelledMarker, d, skeletons.next, v);
    var forcePlates :- GatedCounted(Since(v, 2, 9), DecodeDevice, d, labelled.next, v);
    var devices :- GatedCounted(Since(v, 2, 11), DecodeDevice, d, forcePlates.next, v);
    var timing :- DecodeTimingInfo(d, devices.next, v);
    var params :- DecodeInt16(d, timing.next, v);
    Ok(Parsed(MocapFrameMessage(frameNumber.value, markersets.value, unlabelled.value,
                                rigidBodies.value, skeletons.value, labelled.value,
                                forcePlates.value, devices.value, timing.value, params.value),
              params.next))
  }

  /** `MocapFrameMessage.deserialize`: the body, then a trailing uint32 that is
      read and dropped. */
  function DecodeMocapFrame(d: Bytes, off: nat, v: Version): Result<Parsed<MocapFrameMessage>>
  {
    var body :- DecodeFrameBody(d, off, v);
    var unknown :- DecodeUInt32(d, body.next, v);
    Ok(Parsed(body.value, unknown.next))
  }

  // ----------------------------------------------------------------- flags

  /** `RigidBody.tracking_valid`; the assertion on a missing params word is an error. */
  function TrackingValid(b: RigidBody): Result<bool>
  {
    if b.params.None? then Err(NoParams) else Ok(Bit(b.params.value, 0))
  }

  /** `LabelledMarker.occluded`. */
  function Occluded(m: LabelledMarker): Result<bool>
  {
    if m.params.None? then Err(NoParams) else Ok(Bit(m.params.value, 0))
  }

  /** `LabelledMarker.point_cloud_solved`. */
  function PointCloudSolved(m: LabelledMarker): Result<bool>
  {
    if m.params.None? then Err(NoParams) else Ok(Bit(m.params.value, 1))
  }

  /** `LabelledMarker.model_solved`. */
  function ModelSolved(m: LabelledMarker): Result<bool>
  {
    if m.params.None? then Err(NoParams) else Ok(Bit(m.params.value, 2))
  }

  /** `MocapFrameMessage.is_recording`; a frame always carries its params word. */
  predicate IsRecording(f: MocapFrameMessage)
  {
    Bit(f.params, 0)
  }

  /** `MocapFrameMessage.tracked_models_changed`. */
  predicate TrackedModelsChanged(f: MocapFrameMessage)
  {
    Bit(f.params, 1)
  }

  // ------------------------------------------------------------ serialising

  function SerializeVector3s(ms: seq<Vector3Word>): (r: Bytes)
    ensures |r| == Vector3Size * |ms|
  {
    if ms == [] then [] else ms[0] + SerializeVector3s(ms[1..])
  }

  /** `Markerset.serialize`: the name, a NUL, the uint32 count and the positions;
      packing a count that does not fit a uint32 raises. */
  function SerializeMarkerset(m: Markerset): (r: Result<Bytes>)
    ensures r.Ok? <==> |m.markers| < Pow256(UInt32Size)
    ensures r.Ok? ==> |r.value| == |m.name| + 1 + UInt32Size + Vector3Size * |m.markers|
  {
    var count :- PackUInt(|m.markers|, UInt32Size);
    Ok(m.name + [0] + count + SerializeVector3s(m.markers))
  }

  // ------------------------------------------------------ layout properties

  /** Bytes of the marker block of a body with `n` markers. */
  function MarkerBlockSize(v: Version, n: nat): nat
  {
    UInt32Size + Vector3Size * n + (if Since(v, 2, 0) then (UInt32Size + FloatSize) * n else 0) + UInt32Size
  }

  /** Bytes of a rigid body whose marker block (if any) holds `n` markers. */
  function RigidBodySize(v: Version, n: nat): nat
  {
    UInt32Size + Vector3Size + QuaternionSize
    + (if Less(v, MakeVersion(3)) then MarkerBlockSize(v, n) else 0)
    + (if Since(v, 2, 0) then FloatSize else 0)
    + (if SinceOrUnknown(v, 2, 6) then Int16Size else 0)
  }

  /** The version-2 marker details are a uint32 id and a float size per marker. */
  lemma MarkerDetailsLayout(d: Bytes, off: nat, v: Version, n: nat)
    requires DecodeMarkerDetails(d, off, v, n).Ok?
    ensures DecodeMarkerDetails(d, off, v, n).value == Parsed(n, off + (UInt32Size + FloatSize) * n)
  {
    assert FixedWidth(DecodeUInt32, d, v, UInt32Size);
    assert FixedWidth(DecodeFloat, d, v, FloatSize);
    RepeatFixedWidth(DecodeUInt32, d, off, v, n, UInt32Size);
    RepeatFixedWidth(DecodeFloat, d, off + UInt32Size * n, v, n, FloatSize);
  }

  /** The marker block is its count followed by that many positions (and ids and
      sizes from version 2), then the padding word. */
  lemma MarkerBlockLayout(d: Bytes, off: nat, v: Version)
    requires DecodeMarkerBlock(d, off, v).Ok?
    ensures off + 4 <= |d|
    ensures DecodeMarkerBlock(d, off, v).value
         == Parsed(UIntLE(d[off..off + 4]), off + MarkerBlockSize(v, UIntLE(d[off..off + 4])))
  {
    var n := UIntLE(d[off..off + 4]);
    assert DecodeUInt32(d, off, v) == Ok(Parsed(n, off + 4));
    assert FixedWidth(DecodeVector3, d, v, Vector3Size);
    RepeatFixedWidth(DecodeVector3, d, off + 4, v, n, Vector3Size);
    var positions := off + 4 + Vector3Size * n;
    if Since(v, 2, 0) {
      MarkerDetailsLayout(d, positions, v, n);
    }
  }

  /** `RigidBody` consumes 32 fixed bytes; before version 3 the marker block;
      4 more for the mean error from version 2; 2 more for params from 2.6
      (or version 0). The id is the first uint32, and the mean error and params
      are present exactly when their version gates hold. */
  lemma RigidBodyLayout(d: Bytes, off: nat, v: Version)
    requires DecodeRigidBody(d, off, v).Ok?
    ensures off + 32 <= |d| && (Less(v, MakeVersion(3)) ==> off + 36 <= |d|)
    ensures var b := DecodeRigidBody(d, off, v).value;
      var n := if Less(v, MakeVersion(3)) then UIntLE(d[off + 32..off + 36]) else 0;
      && b.next == off + RigidBodySize(v, n)
      && b.value.id == UIntLE(d[off..off + 4])
      && (b.value.meanError.Some? <==> Since(v, 2, 0))
      && (b.value.params.Some? <==> SinceOrUnknown(v, 2, 6))
  {
    if Less(v, MakeVersion(3)) {
      MarkerBlockLayout(d, off + 32, v);
    }
  }

  /** From version 3 a rigid body has a fixed size and fails only on a short buffer. */
  lemma RigidBodyFixedSize(d: Bytes, off: nat, v: Version)
    requires !Less(v, MakeVersion(3))
    ensures DecodeRigidBody(d, off, v).Ok? <==> off + RigidBodySize(v, 0) <= |d|
  {
  }

  /** A skeleton holds exactly the number of rigid bodies its count announces. */
  lemma SkeletonLayout(d: Bytes, off: nat, v: Version)
    requires DecodeSkeleton(d, off, v).Ok?
    ensures off + 8 <= |d|
    ensures var s := DecodeSkeleton(d, off, v).value.value;
      s.id == UIntLE(d[off..off + 4]) && |s.rigidBodies| == UIntLE(d[off + 4..off + 8])
  {
    CountedLength(DecodeRigidBody, d, off + 4, v);
  }

  /** The marker id is the first uint16 and the model id the second; the params
      word and the residual are present exactly when their gates hold. */
  lemma LabelledMarkerLayout(d: Bytes, off: nat, v: Version)
    requires DecodeLabelledMarker(d, off, v).Ok?
    ensures off + 20 <= |d|
    ensures var m := DecodeLabelledMarker(d, off, v).value;
      && m.value.markerId == UIntLE(d[off..off + 2])
      && m.value.modelId == UIntLE(d[off + 2..off + 4])
      && m.value.position == d[off + 4..off + 16]
      && m.value.size == d[off + 16..off + 20]
      && (m.value.params.Some? <==> SinceOrUnknown(v, 2, 6))
      && (m.value.residual.Some? <==> SinceOrUnknown(v, 3, 0))
      && m.next == off + 20 + (if SinceOrUnknown(v, 2, 6) then 2 else 0)
                           + (if SinceOrUnknown(v, 3, 0) then 4 else 0)
  {
  }

  /** Timing information has a fixed size for a given version, fails only on a
      short buffer, and its optional parts follow their version gates. */
  lemma TimingInfoLayout(d: Bytes, off: nat, v: Version)
    ensures DecodeTimingInfo(d, off, v).Ok? <==> off + TimingInfoSize(v) <= |d|
    ensures DecodeTimingInfo(d, off, v).Ok? ==>
      var t := DecodeTimingInfo(d, off, v).value;
      && t.next == off + TimingInfoSize(v)
      && (t.value.timestamp.Double? <==> Since(v, 2, 7))
      && (t.value.cameraMidExposureTimestamp.Some? <==> SinceOrUnknown(v, 3, 0))
      && (t.value.cameraDataReceivedTimestamp.Some? <==> SinceOrUnknown(v, 3, 0))
      && (t.value.transmitTimestamp.Some? <==> SinceOrUnknown(v, 3, 0))
  {
  }

  /** The frame body reads its sections back to back, each starting where the
      one before it ended: the frame number, then the markersets, unlabelled
      markers and rigid bodies, each a count and that many values. The
      skeletons, labelled markers, force plates and devices are counted the
      same way when their version gate is open; when it is closed the list is
      empty and no byte is consumed. The timing information follows (its size
      is in `TimingInfoLayout`), then the params word, an int16, and the body
      ends after it. */
  lemma FrameBodyLayout(d: Bytes, off: nat, v: Version)
    requires DecodeFrameBody(d, off, v).Ok?
    ensures off + 8 <= |d|
    ensures var f := DecodeFrameBody(d, off, v).value.value;
      var unlabelledAt := Counted(DecodeMarkerset, d, off + 4, v).value.next;
      var rigidBodiesAt := Counted(DecodeVector3, d, unlabelledAt, v).value.next;
      var skeletonsAt := Counted(DecodeRigidBody, d, rigidBodiesAt, v).value.next;
      var labelledAt := GatedCounted(HasSkeletons(v), DecodeSkeleton, d, skeletonsAt, v).value.next;
      var forcePlatesAt := GatedCounted(Since(v, 2, 3), DecodeLabelledMarker, d, labelledAt, v).value.next;
      var devicesAt := GatedCounted(Since(v, 2, 9), DecodeDevice, d, forcePlatesAt, v).value.next;
      var timingAt := GatedCounted(Since(v, 2, 11), DecodeDevice, d, devicesAt, v).value.next;
      && f.frameNumber == UIntLE(d[off..off + 4])
      && CountAt(d, off + 4, |f.markersets|)
      && CountAt(d, unlabelledAt, |f.unlabelledMarkers|)
      && CountAt(d, rigidBodiesAt, |f.rigidBodies|)
      && (if HasSkeletons(v) then CountAt(d, skeletonsAt, |f.skeletons|)
          else f.skeletons == [] && labelledAt == skeletonsAt)
      && (if Since(v, 2, 3) then CountAt(d, labelledAt, |f.labelledMarkers|)
          else f.labelledMarkers == [] && forcePlatesAt == labelledAt)
      && (if Since(v, 2, 9) then CountAt(d, forcePlatesAt, |f.forcePlates|)
          else f.forcePlates == [] && devicesAt == forcePlatesAt)
      && (if Since(v, 2, 11) then CountAt(d, devicesAt, |f.devices|)
          else f.devices == [] && timingAt == devicesAt)
      && DecodeTimingInfo(d, timingAt, v).Ok?
      && var timing := DecodeTimingInfo(d, timingAt, v).value;
      && timing.value == f.timingInfo
      && DecodeInt16(d, timing.next, v) == Ok(Parsed(f.params, DecodeFrameBody(d, off, v).value.next))
  {
    var frameNumber := DecodeUInt32(d, off, v).value;
    assert frameNumber.next == off + 4;
    var markersets := Counted(DecodeMarkerset, d, off + 4, v).value;
    CountedLength(DecodeMarkerset, d, off + 4, v);
    var unlabelled := Counted(DecodeVector3, d, markersets.next, v).value;
    CountedLength(DecodeVector3, d, markersets.next, v);
    var rigidBodies := Counted(DecodeRigidBody, d, unlabelled.next, v).value;
    CountedLength(DecodeRigidBody, d, unlabelled.next, v);
    var skeletons := GatedCounted(HasSkeletons(v), DecodeSkeleton, d, rigidBodies.next, v).value;
    GatedCountedLayout(HasSkeletons(v), DecodeSkeleton, d, rigidBodies.next, v);
    var labelled := GatedCounted(Since(v, 2, 3), DecodeLabelledMarker, d, skeletons.next, v).value;
    GatedCountedLayout(Since(v, 2, 3), DecodeLabelledMarker, d, skeletons.next, v);
    var forcePlates := GatedCounted(Since(v, 2, 9), DecodeDevice, d, labelled.next, v).value;
    GatedCountedLayout(Since(v, 2, 9), DecodeDevice, d, labelled.next, v);
    var devices := GatedCounted(Since(v, 2, 11), DecodeDevice, d, forcePlates.next, v).value;
    GatedCountedLayout(Since(v, 2, 11), DecodeDevice, d, forcePlates.next, v);
    var timing := DecodeTimingInfo(d, devices.next, v).value;
    var params := DecodeInt16(d, timing.next, v).value;
    var f := MocapFrameMessage(frameNumber.value, markersets.value, unlabelled.value, rigidBodies.value,
                               skeletons.value, labelled.value, forcePlates.value, devices.value,
                               timing.value, params.value);
    assert DecodeFrameBody(d, off, v) == Ok(Parsed(f, params.next));
  }

  /** The marker flags are the low three bits of the params word's first byte,
      which sits 20 bytes into the marker. */
  lemma MarkerFlagsFromWire(d: Bytes, off: nat, v: Version)
    requires DecodeLabelledMarker(d, off, v).Ok? && SinceOrUnknown(v, 2, 6)
    ensures off + 22 <= |d|
    ensures var m := DecodeLabelledMarker(d, off, v).value.value;
      && Occluded(m) == Ok(Bit(d[off + 20], 0))
      && PointCloudSolved(m) == Ok(Bit(d[off + 20], 1))
      && ModelSolved(m) == Ok(Bit(d[off + 20], 2))
  {
    var w := d[off + 20..off + 22];
    LowFlagBits(w, 0);
    LowFlagBits(w, 1);
    LowFlagBits(w, 2);
  }

  /** The recording and tracked-models flags of a frame are bits 0 and 1 of
      the first byte of the params word it was read from (where that word
      sits is in `FrameBodyLayout`). */
  lemma FrameFlagsFromWire(d: Bytes, at: nat, v: Version, f: MocapFrameMessage, end: nat)
    requires DecodeInt16(d, at, v) == Ok(Parsed(f.params, end))
    ensures at < |d|
    ensures IsRecording(f) <==> Bit(d[at], 0)
    ensures TrackedModelsChanged(f) <==> Bit(d[at], 1)
  {
    var w := d[at..at + 2];
    LowFlagBits(w, 0);
    LowFlagBits(w, 1);
  }

  /** Bit 0 of an int16 params word is bit 0 of its first byte. */
  lemma ParamsLowBit(d: Bytes, at: nat, v: Version, p: int, end: nat)
    requires DecodeInt16(d, at, v) == Ok(Parsed(p, end))
    ensures end == at + 2 <= |d|
    ensures Bit(p, 0) <==> Bit(d[at], 0)
  {
    LowFlagBits(d[at..at + 2], 0);
  }

  /** Where a rigid body carries params (from 2.6, or version 0), its
      tracking flag is bit 0 of the first byte of that word, the last field
      it reads (its end is in `RigidBodyLayout`). */
  lemma RigidBodyFlagsFromWire(d: Bytes, off: nat, v: Version)
    requires DecodeRigidBody(d, off, v).Ok? && SinceOrUnknown(v, 2, 6)
    ensures var b := DecodeRigidBody(d, off, v).value;
      && off + 2 <= b.next <= |d|
      && TrackingValid(b.value) == Ok(Bit(d[b.next - 2], 0))
  {
    var id := DecodeUInt32(d, off, v).value;
    var position := DecodeVector3(d, id.next, v).value;
    var orientation := DecodeQuaternion(d, position.next, v).value;
    var block := (if Less(v, MakeVersion(3)) then DecodeMarkerBlock(d, orientation.next, v)
                  else Ok(Parsed(0, orientation.next))).value;
    var meanError := Optional(Since(v, 2, 0), DecodeFloat, d, block.next, v).value;
    var params := DecodeInt16(d, meanError.next, v).value;
    assert DecodeRigidBody(d, off, v) ==
      Ok(Parsed(RigidBody(id.value, position.value, orientation.value, meanError.value, Some(params.value)),
                params.next));
    RigidBodyLayout(d, off, v);
    ParamsLowBit(d, meanError.next, v, params.value, params.next);
  }

  /** Every flag is an error exactly when the params word is missing. */
  lemma FlagsNeedParams(b: RigidBody, m: LabelledMarker)
    ensures TrackingValid(b).Err? <==> b.params.None?
    ensures Occluded(m).Err? <==> m.params.None?
    ensures PointCloudSolved(m).Err? <==> m.params.None?
    ensures ModelSolved(m).Err? <==> m.params.None?
  {
  }

  /** Bit 0 of the params word (recording) is its parity and bit 1 (tracked
      models changed) the parity of its half, for every value, negative ones
      included. */
  lemma FrameFlags(f: MocapFrameMessage)
    ensures IsRecording(f) <==> f.params % 2 == 1
    ensures TrackedModelsChanged(f) <==> (f.params / 2) % 2 == 1
  {
    assert Pow2(0) == 1 && Pow2(1) == 2;
  }

  /** The recorded v3 packet's markers have params 10 and 18: both are only
      point-cloud solved. */
  lemma RecordedMarkerFlags(m: LabelledMarker)
    requires m.params == Some(10) || m.params == Some(18)
    ensures Occluded(m) == Ok(false)
    ensures PointCloudSolved(m) == Ok(true)
    ensures ModelSolved(m) == Ok(false)
  {
    assert Pow2(1) == 2;
    assert Pow2(2) == 4 by { assert Pow2(1) == 2; }
  }

  /** `n` positions serialised and read back are the same positions. */
  lemma {:induction false} Vector3sRoundTrip(ms: seq<Vector3Word>, d: Bytes, off: nat, v: Version)
    requires off + Vector3Size * |ms| <= |d|
    requires d[off..off + Vector3Size * |ms|] == SerializeVector3s(ms)
    ensures Repeat(DecodeVector3, d, off, v, |ms|) == Ok(Parsed(ms, off + Vector3Size * |ms|))
  {
    if ms != [] {
      var s := SerializeVector3s(ms);
      assert s == ms[0] + SerializeVector3s(ms[1..]);
      assert d[off..off + Vector3Size] == s[..Vector3Size] == ms[0];
      assert d[off + Vector3Size..off + Vector3Size * |ms|] == s[Vector3Size..];
      Vector3sRoundTrip(ms[1..], d, off + Vector3Size, v);
      assert [ms[0]] + ms[1..] == ms;
    }
  }

  /** A markerset is its name followed by its counted positions. */
  lemma MarkersetOf(m: Markerset, d: Bytes, off: nat, v: Version, at: nat, end: nat)
    requires CStr(Current, d, off, 0) == Parsed(m.name, at)
    requires Counted(DecodeVector3, d, at, v) == Ok(Parsed(m.markers, end))
    ensures DecodeMarkerset(d, off, v) == Ok(Parsed(m, end))
  {
  }

  /** A NUL-terminated name, a uint32 count and that many positions read back as
      the markerset they describe. */
  lemma MarkersetFromParts(m: Markerset, d: Bytes, off: nat, v: Version, at: nat, end: nat)
    requires NoNul(m.name) && at == off + |m.name| + 1
    requires end == at + 4 + Vector3Size * |m.markers| <= |d|
    requires d[off..at] == m.name + [0]
    requires UIntLE(d[at..at + 4]) == |m.markers|
    requires d[at + 4..end] == SerializeVector3s(m.markers)
    ensures DecodeMarkerset(d, off, v) == Ok(Parsed(m, end))
  {
    FreeCStrOfTerminated(d, off, m.name);
    CountedVector3sRoundTrip(m.markers, d, at, v);
    MarkersetOf(m, d, off, v, at, end);
  }

  /** A uint32 count followed by that many serialised positions reads back as them. */
  lemma CountedVector3sRoundTrip(ms: seq<Vector3Word>, d: Bytes, at: nat, v: Version)
    requires at + 4 + Vector3Size * |ms| <= |d|
    requires UIntLE(d[at..at + 4]) == |ms|
    requires d[at + 4..at + 4 + Vector3Size * |ms|] == SerializeVector3s(ms)
    ensures Counted(DecodeVector3, d, at, v) == Ok(Parsed(ms, at + 4 + Vector3Size * |ms|))
  {
    Vector3sRoundTrip(ms, d, at + 4, v);
    CountedOf(DecodeVector3, d, at, v, ms, at + 4 + Vector3Size * |ms|);
  }

  /** Where the name, the count and the positions of a serialised markerset lie. */
  lemma SerializedMarkersetParts(m: Markerset, d: Bytes, off: nat)
    requires SerializeMarkerset(m).Ok?
    requires var s := SerializeMarkerset(m).value; off + |s| <= |d| && d[off..off + |s|] == s
    ensures var at := off + |m.name| + 1;
      && at + 4 + Vector3Size * |m.markers| == off + |SerializeMarkerset(m).value|
      && d[off..at] == m.name + [0]
      && UIntLE(d[at..at + 4]) == |m.markers|
      && d[at + 4..at + 4 + Vector3Size * |m.markers|] == SerializeVector3s(m.markers)
  {
    var s := SerializeMarkerset(m).value;
    var count := PackUInt(|m.markers|, UInt32Size).value;
    var n := |m.name|;
    assert s == m.name + [0] + count + SerializeVector3s(m.markers);
    assert s[..n + 1] == m.name + [0];
    assert s[n + 1..n + 5] == count;
    assert s[n + 5..] == SerializeVector3s(m.markers);
    SubSlice(d, off, s, 0, n + 1);
    SubSlice(d, off, s, n + 1, n + 5);
    SubSlice(d, off, s, n + 5, |s|);
  }

  /** `Markerset.deserialize(serialize(m)) == m` for a name without NUL bytes,
      and every serialised byte is consumed, whatever follows. */
  lemma MarkersetRoundTrip(m: Markerset, d: Bytes, off: nat, v: Version)
    requires NoNul(m.name) && SerializeMarkerset(m).Ok?
    requires var s := SerializeMarkerset(m).value; off + |s| <= |d| && d[off..off + |s|] == s
    ensures DecodeMarkerset(d, off, v) == Ok(Parsed(m, off + |SerializeMarkerset(m).value|))
  {
    var at, end := off + |m.name| + 1, off + |SerializeMarkerset(m).value|;
    SerializedMarkersetParts(m, d, off);
    assert end == at + 4 + Vector3Size * |m.markers| <= |d|;
    MarkersetFromParts(m, d, off, v, at, end);
  }

  // ------------------------------------------------------------ the readers

  method ReadMarkerset(buf: ParseBuffer, v: Version) returns (r: Result<Markerset>)
    modifies buf
    ensures Agrees(r, DecodeMarkerset(buf.data, old(buf.offset), v), buf.offset)
  {
    var name := buf.UnpackCstr(0);
    var count :- buf.UnpackUInt(UInt32Size);
    var markers :- ReadVector3s(buf, v, count);
    r := Ok(Markerset(name, markers));
  }

  /** `[Markerset.deserialize(data, version) for i in range(n)]`. */
  method ReadMarkersets(buf: ParseBuffer, v: Version, n: nat) returns (r: Result<seq<Markerset>>)
    modifies buf
    ensures Agrees(r, Repeat(DecodeMarkerset, buf.data, old(buf.offset), v, n), buf.offset)
  {
    var items: seq<Markerset> := [];
    ghost var offs := [buf.offset];
    while |items| < n
      invariant Chain(DecodeMarkerset, buf.data, v, offs, items)
      invariant |items| <= n && offs[0] == old(buf.offset) && offs[|items|] == buf.offset
    {
      var x := ReadMarkerset(buf, v);
      if x.Err? {
        ChainFail(DecodeMarkerset, buf.data, v, offs, items, n);
        return Err(x.error);
      }
      ChainExtend(DecodeMarkerset, buf.data, v, offs, items, x.value, buf.offset);
      items, offs := items + [x.value], offs + [buf.offset];
    }
    ChainDone(DecodeMarkerset, buf.data, v, offs, items);
    r := Ok(items);
  }

  method ReadMarkerBlock(buf: ParseBuffer, v: Version) returns (r: Result<nat>)
    modifies buf
    ensures Agrees(r, DecodeMarkerBlock(buf.data, old(buf.offset), v), buf.offset)
  {
    var count :- buf.UnpackUInt(UInt32Size);
    var positions :- ReadVector3s(buf, v, count);
    if Since(v, 2, 0) {
      var ids :- ReadUInt32s(buf, v, count);
      var sizes :- ReadFloats(buf, v, count);
    }
    var padding :- buf.UnpackUInt(UInt32Size);
    r := Ok(count);
  }

  method ReadRigidBody(buf: ParseBuffer, v: Version) returns (r: Result<RigidBody>)
    modifies buf
    ensures Agrees(r, DecodeRigidBody(buf.data, old(buf.offset), v), buf.offset)
  {
    var id :- buf.UnpackUInt(UInt32Size);
    var position :- ReadVector3(buf, v);
    var orientation :- ReadQuaternion(buf, v);
    if Less(v, MakeVersion(3)) {
      var count :- ReadMarkerBlock(buf, v);
    }
    var meanError := None;
    if Since(v, 2, 0) {
      var e :- ReadFloat(buf, v);
      meanError := Some(e);
    }
    var params := None;
    if SinceOrUnknown(v, 2, 6) {
      var p :- buf.UnpackInt(Int16Size);
      params := Some(p);
    }
    r := Ok(RigidBody(id, position, orientation, meanError, params));
  }

  /** `[RigidBody.deserialize(data, version) for i in range(n)]`. */
  method ReadRigidBodies(buf: ParseBuffer, v: Version, n: nat) returns (r: Result<seq<RigidBody>>)
    modifies buf
    ensures Agrees(r, Repeat(DecodeRigidBody, buf.data, old(buf.offset), v, n), buf.offset)
  {
    var items: seq<RigidBody> := [];
    ghost var offs := [buf.offset];
    while |items| < n
      invariant Chain(DecodeRigidBody, buf.data, v, offs, items)
      invariant |items| <= n && offs[0] == old(buf.offset) && offs[|items|] == buf.offset
    {
      var x := ReadRigidBody(buf, v);
      if x.Err? {
        ChainFail(DecodeRigidBody, buf.data, v, offs, items, n);
        return Err(x.error);
      }
      ChainExtend(DecodeRigidBody, buf.data, v, offs, items, x.value, buf.offset);
      items, offs := items + [x.value], offs + [buf.offset];
    }
    ChainDone(DecodeRigidBody, buf.data, v, offs, items);
    r := Ok(items);
  }

  method ReadSkeleton(buf: ParseBuffer, v: Version) returns (r: Result<Skeleton>)
    modifies buf
    ensures Agrees(r, DecodeSkeleton(buf.data, old(buf.offset), v), buf.offset)
  {
    var id :- buf.UnpackUInt(UInt32Size);
    var count :- buf.UnpackUInt(UInt32Size);
    var bodies :- ReadRigidBodies(buf, v, count);
    r := Ok(Skeleton(id, bodies));
  }

  /** `[Skeleton.deserialize(data, version) for i in range(n)]`. */
  method ReadSkeletons(buf: ParseBuffer, v: Version, n: nat) returns (r: Result<seq<Skeleton>>)
    modifies buf
    ensures Agrees(r, Repeat(DecodeSkeleton, buf.data, old(buf.offset), v, n), buf.offset)
  {
    var items: seq<Skeleton> := [];
    ghost var offs := [buf.offset];
    while |items| < n
      invariant Chain(DecodeSkeleton, buf.data, v, offs, items)
      invariant |items| <= n && offs[0] == old(buf.offset) && offs[|items|] == buf.offset
    {
      var x := ReadSkeleton(buf, v);
      if x.Err? {
        ChainFail(DecodeSkeleton, buf.data, v, offs, items, n);
        return Err(x.error);
      }
      ChainExtend(DecodeSkeleton, buf.data, v, offs, items, x.value, buf.offset);
      items, offs := items + [x.value], offs + [buf.offset];
    }
    ChainDone(DecodeSkeleton, buf.data, v, offs, items);
    r := Ok(items);
  }

  method ReadLabelledMarker(buf: ParseBuffer, v: Version) returns (r: Result<LabelledMarker>)
    modifies buf
    ensures Agrees(r, DecodeLabelledMarker(buf.data, old(buf.offset), v), buf.offset)
  {
    var markerId :- buf.UnpackUInt(UInt16Size);
    var modelId :- buf.UnpackUInt(UInt16Size);
    var position :- ReadVector3(buf, v);
    var size :- ReadFloat(buf, v);
    var params := None;
    if SinceOrUnknown(v, 2, 6) {
      var p :- buf.UnpackInt(Int16Size);
      params := Some(p);
    }
    var residual := None;
    if SinceOrUnknown(v, 3, 0) {
      var e :- ReadFloat(buf, v);
      residual := Some(e);
    }
    r := Ok(LabelledMarker(modelId, markerId, position, size, params, residual));
  }

  /** `[LabelledMarker.deserialize(data, version) for i in range(n)]`. */
  method ReadLabelledMarkers(buf: ParseBuffer, v: Version, n: nat) returns (r: Result<seq<LabelledMarker>>)
    modifies buf
    ensures Agrees(r, Repeat(DecodeLabelledMarker, buf.data, old(buf.offset), v, n), buf.offset)
  {
    var items: seq<LabelledMarker> := [];
    ghost var offs := [buf.offset];
    while |items| < n
      invariant Chain(DecodeLabelledMarker, buf.data, v, offs, items)
      invariant |items| <= n && offs[0] == old(buf.offset) && offs[|items|] == buf.offset
    {
      var x := ReadLabelledMarker(buf, v);
      if x.Err? {
        ChainFail(DecodeLabelledMarker, buf.data, v, offs, items, n);
        return Err(x.error);
      }
      ChainExtend(DecodeLabelledMarker, buf.data, v, offs, items, x.value, buf.offset);
      items, offs := items + [x.value], offs + [buf.offset];
    }
    ChainDone(DecodeLabelledMarker, buf.data, v, offs, items);
    r := Ok(items);
  }

  method ReadAnalogChannelData(buf: ParseBuffer, v: Version) returns (r: Result<AnalogChannelData>)
    modifies buf
    ensures Agrees(r, DecodeAnalogChannelData(buf.data, old(buf.offset), v), buf.offset)
  {
    var count :- buf.UnpackUInt(UInt32Size);
    var values :- ReadUInt32s(buf, v, count);
    r := Ok(AnalogChannelData(values));
  }

  /** `[AnalogChannelData.deserialize(data, version) for i in range(n)]`. */
  method ReadAnalogChannels(buf: ParseBuffer, v: Version, n: nat) returns (r: Result<seq<AnalogChannelData>>)
    modifies buf
    ensures Agrees(r, Repeat(DecodeAnalogChannelData, buf.data, old(buf.offset), v, n), buf.offset)
  {
    var items: seq<AnalogChannelData> := [];
    ghost var offs := [buf.offset];
    while |items| < n
      invariant Chain(DecodeAnalogChannelData, buf.data, v, offs, items)
      invariant |items| <= n && offs[0] == old(buf.offset) && offs[|items|] == buf.offset
    {
      var x := ReadAnalogChannelData(buf, v);
      if x.Err? {
        ChainFail(DecodeAnalogChannelData, buf.data, v, offs, items, n);
        return Err(x.error);
      }
      ChainExtend(DecodeAnalogChannelData, buf.data, v, offs, items, x.value, buf.offset);
      items, offs := items + [x.value], offs + [buf.offset];
    }
    ChainDone(DecodeAnalogChannelData, buf.data, v, offs, items);
    r := Ok(items);
  }

  method ReadDevice(buf: ParseBuffer, v: Version) returns (r: Result<Device>)
    modifies buf
    ensures Agrees(r, DecodeDevice(buf.data, old(buf.offset), v), buf.offset)
  {
    var id :- buf.UnpackUInt(UInt32Size);
    var count :- buf.UnpackUInt(UInt32Size);
    var channels :- ReadAnalogChannels(buf, v, count);
    r := Ok(Device(id, channels));
  }

  /** `[Device.deserialize(data, version) for i in range(n)]`. */
  method ReadDevices(buf: ParseBuffer, v: Version, n: nat) returns (r: Result<seq<Device>>)
    modifies buf
    ensures Agrees(r, Repeat(DecodeDevice, buf.data, old(buf.offset), v, n), buf.offset)
  {
    var items: seq<Device> := [];
    ghost var offs := [buf.offset];
    while |items| < n
      invariant Chain(DecodeDevice, buf.data, v, offs, items)
      invariant |items| <= n && offs[0] == old(buf.offset) && offs[|items|] == buf.offset
    {
      var x := ReadDevice(buf, v);
      if x.Err? {
        ChainFail(DecodeDevice, buf.data, v, offs, items, n);
        return Err(x.error);
      }
      ChainExtend(DecodeDevice, buf.data, v, offs, items, x.value, buf.offset);
      items, offs := items + [x.value], offs + [buf.offset];
    }
    ChainDone(DecodeDevice, buf.data, v, offs, items);
    r := Ok(items);
  }

  method ReadTimingInfo(buf: ParseBuffer, v: Version) returns (r: Result<TimingInfo>)
    modifies buf
    ensures Agrees(r, DecodeTimingInfo(buf.data, old(buf.offset), v), buf.offset)
  {
    var timecode :- buf.UnpackUInt(UInt32Size);
    var subframe :- buf.UnpackUInt(UInt32Size);
    var timestamp;
    if Since(v, 2, 7) {
      var t :- ReadDouble(buf, v);
      timestamp := Double(t);
    } else {
      var t :- ReadFloat(buf, v);
      timestamp := Single(t);
    }
    var midExposure, dataReceived, transmit := None, None, None;
    if SinceOrUnknown(v, 3, 0) {
      var t1 :- buf.UnpackUInt(UInt64Size);
      var t2 :- buf.UnpackUInt(UInt64Size);
      var t3 :- buf.UnpackUInt(UInt64Size);
      midExposure, dataReceived, transmit := Some(t1), Some(t2), Some(t3);
    }
    r := Ok(TimingInfo(timecode, subframe, timestamp, midExposure, dataReceived, transmit));
  }

  /** The skeleton section: a counted list for versions above 2, else empty. */
  method ReadSkeletonSection(buf: ParseBuffer, v: Version) returns (r: Result<seq<Skeleton>>)
    modifies buf
    ensures Agrees(r, GatedCounted(HasSkeletons(v), DecodeSkeleton, buf.data, old(buf.offset), v), buf.offset)
  {
    r := Ok([]);
    if HasSkeletons(v) {
      var count :- buf.UnpackUInt(UInt32Size);
      r := ReadSkeletons(buf, v, count);
    }
  }

  /** The labelled marker section: a counted list from version 2.3, else empty. */
  method ReadLabelledMarkerSection(buf: ParseBuffer, v: Version) returns (r: Result<seq<LabelledMarker>>)
    modifies buf
    ensures Agrees(r, GatedCounted(Since(v, 2, 3), DecodeLabelledMarker, buf.data, old(buf.offset), v), buf.offset)
  {
    r := Ok([]);
    if Since(v, 2, 3) {
      var count :- buf.UnpackUInt(UInt32Size);
      r := ReadLabelledMarkers(buf, v, count);
    }
  }

  /** A force plate or device section: a counted list when `present`, else empty. */
  method ReadDeviceSection(buf: ParseBuffer, v: Version, present: bool) returns (r: Result<seq<Device>>)
    modifies buf
    ensures Agrees(r, GatedCounted(present, DecodeDevice, buf.data, old(buf.offset), v), buf.offset)
  {
    r := Ok([]);
    if present {
      var count :- buf.UnpackUInt(UInt32Size);
      r := ReadDevices(buf, v, count);
    }
  }

  /** The frame up to its params word, from the buffer's offset. */
  method ReadFrameBody(buf: ParseBuffer, v: Version) returns (r: Result<MocapFrameMessage>)
    modifies buf
    ensures Agrees(r, DecodeFrameBody(buf.data, old(buf.offset), v), buf.offset)
  {
    var frameNumber :- buf.UnpackUInt(UInt32Size);
    var markersetCount :- buf.UnpackUInt(UInt32Size);
    var markersets :- ReadMarkersets(buf, v, markersetCount);
    var unlabelledCount :- buf.UnpackUInt(UInt32Size);
    var unlabelled :- ReadVector3s(buf, v, unlabelledCount);
    var rigidBodyCount :- buf.UnpackUInt(UInt32Size);
    var rigidBodies :- ReadRigidBodies(buf, v, rigidBodyCount);
    var skeletons :- ReadSkeletonSection(buf, v);
    var labelled :- ReadLabelledMarkerSection(buf, v);
    var forcePlates :- ReadDeviceSection(buf, v, Since(v, 2, 9));
    var devices :- ReadDeviceSection(buf, v, Since(v, 2, 11));
    var timing :- ReadTimingInfo(buf, v);
    var params :- buf.UnpackInt(Int16Size);
    r := Ok(MocapFrameMessage(frameNumber, markersets, unlabelled, rigidBodies, skeletons,
                              labelled, forcePlates, devices, timing, params));
  }

  /** `MocapFrameMessage.deserialize(data, version)`. */
  method ReadMocapFrame(buf: ParseBuffer, v: Version) returns (r: Result<MocapFrameMessage>)
    modifies buf
    ensures Agrees(r, DecodeMocapFrame(buf.data, old(buf.offset), v), buf.offset)
  {
    var frame :- ReadFrameBody(buf, v);
    var unknown :- buf.UnpackUInt(UInt32Size);
    r := Ok(frame);
  }
}
