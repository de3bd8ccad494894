/** The ModelDef payload: a counted list of model descriptions, each introduced
    by a uint32 type tag. Markersets, rigid bodies and skeletons are decoded;
    force plates and devices are declared but not implemented. */
module ModelDefinitions {
  import opened Results
  import opened IntFormats
  import opened Common

  // ------------------------------------------------------------ data model

  datatype MarkerSetDescription = MarkerSetDescription(name: Bytes, markerNames: seq<Bytes>)

  datatype RigidBodyDescription = RigidBodyDescription(
    name: Option<Bytes>,
    id: nat,
    parentId: int,
    offsetFromParent: Vector3Word,
    markerPositions: seq<Vector3Word>,
    requiredActiveLabels: seq<nat>)

  datatype SkeletonDescription = SkeletonDescription(name: Bytes, id: int, rigidBodies: seq<RigidBodyDescription>)

  /** One entry of `models`, by the type tag it was read under. */
  datatype ModelDescription =
    | MarkerSetModel(markerSet: MarkerSetDescription)
    | RigidBodyModel(rigidBody: RigidBodyDescription)
    | SkeletonModel(skeleton: SkeletonDescription)

  datatype ModelDefinitionsMessage = ModelDefinitionsMessage(models: seq<ModelDescription>)

  /** `ModelType`. */
  const MarkerSetTag := 0
  const RigidBodyTag := 1
  const SkeletonTag := 2
  const ForcePlateTag := 3
  const DeviceTag := 4

  /** The tag a decoded description was read under. */
  function TagOf(m: ModelDescription): nat
  {
    match m
    case MarkerSetModel(_) => MarkerSetTag
    case RigidBodyModel(_) => RigidBodyTag
    case SkeletonModel(_) => SkeletonTag
  }

  // ------------------------------------------------- decoders, as specification

  /** A free-length `unpack_cstr()`, as a list element. */
  function DecodeName(d: Bytes, off: nat, v: Version): Result<Parsed<Bytes>>
  {
    Ok(CStr(Current, d, off, 0))
  }

  /** `MarkerSetDescription.deserialize`. */
  function DecodeMarkerSetDescription(d: Bytes, off: nat, v: Version): Result<Parsed<MarkerSetDescription>>
  {
    var name := CStr(Current, d, off, 0);
    var names :- Counted(DecodeName, d, name.next, v);
    Ok(Parsed(MarkerSetDescription(name.value, names.value), names.next))
  }

  /** The default of `skip_markers`: the marker block is absent before version 3. */
  predicate SkipMarkers(v: Version, skip: Option<bool>)
  {
    if skip.Some? then skip.value else Less(v, MakeVersion(3))
  }

  /** The marker block: a count, the positions, then the required active labels. */
  function DecodeMarkerList(d: Bytes, off: nat, v: Version)
    : Result<Parsed<(seq<Vector3Word>, seq<nat>)>>
  {
    var count :- DecodeUInt32(d, off, v);
    var positions :- Repeat(DecodeVector3, d, count.next, v, count.value);
    var labels :- Repeat(DecodeUInt32, d, positions.next, v, count.value);
    Ok(Parsed((positions.value, labels.value), labels.next))
  }

  /** `RigidBodyDescription.deserialize(data, version, skip_markers)`. */
  function DecodeRigidBodyDescription(d: Bytes, off: nat, v: Version, skip: Option<bool>)
    : Result<Parsed<RigidBodyDescription>>
  {
    var name :=
      if Since(v, 2, 0) then var s := CStr(Current, d, off, 0); Parsed(Some(s.value), s.next)
      else Parsed(None, off);
    var id :- DecodeUInt32(d, name.next, v);
    var parentId :- DecodeInt32(d, id.next, v);
    var offset :- DecodeVector3(d, parentId.next, v);
    var markers :-
      if SkipMarkers(v, skip) then Ok(Parsed(([], []), offset.next))
      else DecodeMarkerList(d, offset.next, v);
    Ok(Parsed(RigidBodyDescription(name.value, id.value, parentId.value, offset.value,
                                   markers.value.0, markers.value.1),
              markers.next))
  }

  /** A rigid body inside a skeleton, always read with `skip_markers=True`. */
  function DecodeSkeletonBone(d: Bytes, off: nat, v: Version): Result<Parsed<RigidBodyDescription>>
  {
    DecodeRigidBodyDescription(d, off, v, Some(true))
  }

  /** The number of iterations of `range(count)`: none for a count that is not positive. */
  function RangeLength(count: int): nat
  {
    if count <= 0 then 0 else count
  }

  /** `SkeletonDescription.deserialize`; its counts are signed. */
  function DecodeSkeletonDescription(d: Bytes, off: nat, v: Version): Result<Parsed<SkeletonDescription>>
  {
    var name := CStr(Current, d, off, 0);
    var id :- DecodeInt32(d, name.next, v);
    var count :- DecodeInt32(d, id.next, v);
    var bones :- Repeat(DecodeSkeletonBone, d, count.next, v, RangeLength(count.value));
    Ok(Parsed(SkeletonDescription(name.value, id.value, bones.value), bones.next))
  }

  /** One iteration of the loop of `ModelDefinitionsMessage.deserialize`: the tag,
      then the description it announces. */
  function DecodeModel(d: Bytes, off: nat, v: Version): Result<Parsed<ModelDescription>>
  {
    var tag :- DecodeUInt32(d, off, v);
    if tag.value == MarkerSetTag then
      var m :- DecodeMarkerSetDescription(d, tag.next, v);
      Ok(Parsed(MarkerSetModel(m.value), m.next))
    else if tag.value == RigidBodyTag then
      var m :- DecodeRigidBodyDescription(d, tag.next, v, None);
      Ok(Parsed(RigidBodyModel(m.value), m.next))
    else if tag.value == SkeletonTag then
      var m :- DecodeSkeletonDescription(d, tag.next, v);
      Ok(Parsed(SkeletonModel(m.value), m.next))
    else if tag.value == ForcePlateTag || tag.value == DeviceTag then
      Err(NotImplemented(tag.value))
    else
      Err(UnknownModelType(tag.value))
  }

  /** `ModelDefinitionsMessage.deserialize`. */
  function DecodeModelDefinitions(d: Bytes, off: nat, v: Version): Result<Parsed<ModelDefinitionsMessage>>
  {
    var models :- Counted(DecodeModel, d, off, v);
    Ok(Parsed(ModelDefinitionsMessage(models.value), models.next))
  }

  // ------------------------------------------------------------ properties

  /** A free-length string never holds a NUL. */
  lemma NameHasNoNul(d: Bytes, off: nat)
    ensures NoNul(CStr(Current, d, off, 0).value)
  {
    BeforeNulPrefix(Slice(d, off, |d|));
  }

  /** `marker_names` has exactly `marker_count` entries, each a NUL-free name. */
  lemma MarkerSetDescriptionLayout(d: Bytes, off: nat, v: Version)
    requires DecodeMarkerSetDescription(d, off, v).Ok?
    ensures var at := CStr(Current, d, off, 0).next;
      && at + 4 <= |d|
      && var m := DecodeMarkerSetDescription(d, off, v).value.value;
      && NoNul(m.name)
      && |m.markerNames| == UIntLE(d[at..at + 4])
      && forall i :: 0 <= i < |m.markerNames| ==> NoNul(m.markerNames[i])
  {
    var at := CStr(Current, d, off, 0).next;
    NameHasNoNul(d, off);
    CountedLength(DecodeName, d, at, v);
    NamesHaveNoNul(d, at + 4, v, UIntLE(d[at..at + 4]));
  }

  /** Every name of a list of free-length strings is NUL-free. */
  lemma NamesHaveNoNul(d: Bytes, off: nat, v: Version, n: nat)
    requires Repeat(DecodeName, d, off, v, n).Ok?
    ensures var xs := Repeat(DecodeName, d, off, v, n).value.value;
      forall i :: 0 <= i < |xs| ==> NoNul(xs[i])
  {
    forall o: nat
      ensures DecodeName(d, o, v).Ok? ==> NoNul(DecodeName(d, o, v).value.value)
    {
      NameHasNoNul(d, o);
    }
    RepeatAll(DecodeName, NoNul, d, off, v, n);
  }

  /** The marker block, when read, gives as many positions as labels, both the count. */
  lemma MarkerListLayout(d: Bytes, off: nat, v: Version)
    requires DecodeMarkerList(d, off, v).Ok?
    ensures off + 4 <= |d|
    ensures var p := DecodeMarkerList(d, off, v).value.value;
      |p.0| == |p.1| == UIntLE(d[off..off + 4])
  {
  }

  /** The name is read exactly from version 2; the parent id is the signed
      32-bit word 4 bytes after it; the marker lists are both empty when the
      block is skipped and otherwise both as long as its count. */
  lemma RigidBodyDescriptionLayout(d: Bytes, off: nat, v: Version, skip: Option<bool>)
    requires DecodeRigidBodyDescription(d, off, v, skip).Ok?
    ensures var b := DecodeRigidBodyDescription(d, off, v, skip).value.value;
      var at := if Since(v, 2, 0) then CStr(Current, d, off, 0).next else off;
      && (b.name.Some? <==> Since(v, 2, 0))
      && at + 20 <= |d|
      && b.id == UIntLE(d[at..at + 4])
      && b.parentId == IntLE(d[at + 4..at + 8])
      && (SkipMarkers(v, skip) ==> b.markerPositions == [] && b.requiredActiveLabels == [])
      && (!SkipMarkers(v, skip) ==>
            at + 24 <= |d|
            && |b.markerPositions| == |b.requiredActiveLabels| == UIntLE(d[at + 20..at + 24]))
  {
    var at := if Since(v, 2, 0) then CStr(Current, d, off, 0).next else off;
    if !SkipMarkers(v, skip) {
      MarkerListLayout(d, at + 20, v);
    }
  }

  /** A parent id of all one bits is -1, as the recorded packet's root bodies carry. */
  lemma RootParentId(d: Bytes, off: nat, v: Version, skip: Option<bool>)
    requires DecodeRigidBodyDescription(d, off, v, skip).Ok?
    requires var at := if Since(v, 2, 0) then CStr(Current, d, off, 0).next else off;
      at + 8 <= |d| && d[at + 4..at + 8] == [255, 255, 255, 255]
    ensures DecodeRigidBodyDescription(d, off, v, skip).value.value.parentId == -1
  {
    RigidBodyDescriptionLayout(d, off, v, skip);
    MinusOneInt32();
  }

  /** A skeleton has `rigid_body_count` bones (none for a count that is not
      positive), and none of them carries a marker block. */
  lemma SkeletonDescriptionLayout(d: Bytes, off: nat, v: Version)
    requires DecodeSkeletonDescription(d, off, v).Ok?
    ensures var at := CStr(Current, d, off, 0).next;
      && at + 8 <= |d|
      && var s := DecodeSkeletonDescription(d, off, v).value.value;
      && s.id == IntLE(d[at..at + 4])
      && |s.rigidBodies| == RangeLength(IntLE(d[at + 4..at + 8]))
      && forall i :: 0 <= i < |s.rigidBodies| ==> NoMarkers(s.rigidBodies[i])
  {
    var at := CStr(Current, d, off, 0).next;
    forall o: nat
      ensures DecodeSkeletonBone(d, o, v).Ok? ==> NoMarkers(DecodeSkeletonBone(d, o, v).value.value)
    {
      if DecodeSkeletonBone(d, o, v).Ok? {
        RigidBodyDescriptionLayout(d, o, v, Some(true));
      }
    }
    RepeatAll(DecodeSkeletonBone, NoMarkers, d, at + 8, v, RangeLength(IntLE(d[at + 4..at + 8])));
  }

  predicate NoMarkers(b: RigidBodyDescription)
  {
    b.markerPositions == [] && b.requiredActiveLabels == []
  }

  /** A decoded description is of the kind its tag names; tags 3 and 4 are not
      implemented and every other tag is unknown. */
  lemma ModelDispatch(d: Bytes, off: nat, v: Version)
    requires off + 4 <= |d|
    ensures var tag := UIntLE(d[off..off + 4]);
      && (DecodeModel(d, off, v).Ok? ==> TagOf(DecodeModel(d, off, v).value.value) == tag)
      && (tag == ForcePlateTag || tag == DeviceTag ==> DecodeModel(d, off, v) == Err(NotImplemented(tag)))
      && (tag > DeviceTag ==> DecodeModel(d, off, v) == Err(UnknownModelType(tag)))
  {
  }

  /** `models` has `definition_count` entries. */
  lemma ModelDefinitionsLayout(d: Bytes, off: nat, v: Version)
    requires DecodeModelDefinitions(d, off, v).Ok?
    ensures off + 4 <= |d|
    ensures |DecodeModelDefinitions(d, off, v).value.value.models| == UIntLE(d[off..off + 4])
  {
    CountedLength(DecodeModel, d, off, v);
  }

  /** A count of zero is an empty message that consumes only the count. */
  lemma EmptyModelDefinitions(d: Bytes, off: nat, v: Version)
    requires off + 4 <= |d| && d[off..off + 4] == [0, 0, 0, 0]
    ensures DecodeModelDefinitions(d, off, v) == Ok(Parsed(ModelDefinitionsMessage([]), off + 4))
  {
    UInt32Value(d[off..off + 4]);
  }

  // ------------------------------------------------------------ the readers

  /** `[data.unpack_cstr() for i in range(n)]`. */
  method ReadNames(buf: ParseBuffer, v: Version, n: nat) returns (r: seq<Bytes>)
    modifies buf
    ensures Repeat(DecodeName, buf.data, old(buf.offset), v, n) == Ok(Parsed(r, buf.offset))
  {
    var items: seq<Bytes> := [];
    ghost var offs := [buf.offset];
    while |items| < n
      invariant Chain(DecodeName, buf.data, v, offs, items)
      invariant |items| <= n && offs[0] == old(buf.offset) && offs[|items|] == buf.offset
    {
      var x := buf.UnpackCstr(0);
      ChainExtend(DecodeName, buf.data, v, offs, items, x, buf.offset);
      items, offs := items + [x], offs + [buf.offset];
    }
    ChainDone(DecodeName, buf.data, v, offs, items);
    r := items;
  }

  method ReadMarkerSetDescription(buf: ParseBuffer, v: Version) returns (r: Result<MarkerSetDescription>)
    modifies buf
    ensures Agrees(r, DecodeMarkerSetDescription(buf.data, old(buf.offset), v), buf.offset)
  {
    var name := buf.UnpackCstr(0);
    var count :- buf.UnpackUInt(UInt32Size);
    var names := ReadNames(buf, v, count);
    r := Ok(MarkerSetDescription(name, names));
  }

  method ReadRigidBodyDescription(buf: ParseBuffer, v: Version, skip: Option<bool>)
    returns (r: Result<RigidBodyDescription>)
    modifies buf
    ensures Agrees(r, DecodeRigidBodyDescription(buf.data, old(buf.offset), v, skip), buf.offset)
  {
    var name: Option<Bytes> := None;
    if Since(v, 2, 0) {
      var s := buf.UnpackCstr(0);
      name := Some(s);
    }
    var id :- buf.UnpackUInt(UInt32Size);
    var parentId :- buf.UnpackInt(Int32Size);
    var offset :- ReadVector3(buf, v);
    var positions: seq<Vector3Word> := [];
    var labels: seq<nat> := [];
    if !SkipMarkers(v, skip) {
      var count :- buf.UnpackUInt(UInt32Size);
      positions :- ReadVector3s(buf, v, count);
      labels :- ReadUInt32s(buf, v, count);
    }
    r := Ok(RigidBodyDescription(name, id, parentId, offset, positions, labels));
  }

  /** `[RigidBodyDescription.deserialize(data, version, skip_markers=True) for i in range(n)]`. */
  method ReadSkeletonBones(buf: ParseBuffer, v: Version, n: nat) returns (r: Result<seq<RigidBodyDescription>>)
    modifies buf
    ensures Agrees(r, Repeat(DecodeSkeletonBone, buf.data, old(buf.offset), v, n), buf.offset)
  {
    var items: seq<RigidBodyDescription> := [];
    ghost var offs := [buf.offset];
    while |items| < n
      invariant Chain(DecodeSkeletonBone, buf.data, v, offs, items)
      invariant |items| <= n && offs[0] == old(buf.offset) && offs[|items|] == buf.offset
    {
      var x := ReadRigidBodyDescription(buf, v, Some(true));
      if x.Err? {
        ChainFail(DecodeSkeletonBone, buf.data, v, offs, items, n);
        return Err(x.error);
      }
      ChainExtend(DecodeSkeletonBone, buf.data, v, offs, items, x.value, buf.offset);
      items, offs := items + [x.value], offs + [buf.offset];
    }
    ChainDone(DecodeSkeletonBone, buf.data, v, offs, items);
    r := Ok(items);
  }

  method ReadSkeletonDescription(buf: ParseBuffer, v: Version) returns (r: Result<SkeletonDescription>)
    modifies buf
    ensures Agrees(r, DecodeSkeletonDescription(buf.data, old(buf.offset), v), buf.offset)
  {
    var name := buf.UnpackCstr(0);
    var id :- buf.UnpackInt(Int32Size);
    var count :- buf.UnpackInt(Int32Size);
    var bones :- ReadSkeletonBones(buf, v, RangeLength(count));
    r := Ok(SkeletonDescription(name, id, bones));
  }

  method ReadModel(buf: ParseBuffer, v: Version) returns (r: Result<ModelDescription>)
    modifies buf
    ensures Agrees(r, DecodeModel(buf.data, old(buf.offset), v), buf.offset)
  {
    var tag :- buf.UnpackUInt(UInt32Size);
    if tag == MarkerSetTag {
      var m :- ReadMarkerSetDescription(buf, v);
      r := Ok(MarkerSetModel(m));
    } else if tag == RigidBodyTag {
      var m :- ReadRigidBodyDescription(buf, v, None);
      r := Ok(RigidBodyModel(m));
    } else if tag == SkeletonTag {
      var m :- ReadSkeletonDescription(buf, v);
      r := Ok(SkeletonModel(m));
    } else if tag == ForcePlateTag || tag == DeviceTag {
      r := Err(NotImplemented(tag));
    } else {
      r := Err(UnknownModelType(tag));
    }
  }

  /** `ModelDefinitionsMessage.deserialize`: the loop appending to `models`. */
  method ReadModelDefinitions(buf: ParseBuffer, v: Version) returns (r: Result<ModelDefinitionsMessage>)
    modifies buf
    ensures Agrees(r, DecodeModelDefinitions(buf.data, old(buf.offset), v), buf.offset)
  {
    var count :- buf.UnpackUInt(UInt32Size);
    var models: seq<ModelDescription> := [];
    ghost var offs := [buf.offset];
    while |models| < count
      invariant Chain(DecodeModel, buf.data, v, offs, models)
      invariant |models| <= count && offs[0] == old(buf.offset) + 4 && offs[|models|] == buf.offset
    {
      var x := ReadModel(buf, v);
      if x.Err? {
        ChainFail(DecodeModel, buf.data, v, offs, models, count);
        return Err(x.error);
      }
      ChainExtend(DecodeModel, buf.data, v, offs, models, x.value, buf.offset);
      models, offs := models + [x.value], offs + [buf.offset];
    }
    ChainDone(DecodeModel, buf.data, v, offs, models);
    r := Ok(ModelDefinitionsMessage(models));
  }
}
