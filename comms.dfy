/** The deterministic part of the NatNet client: waiting for a packet with a
    given id, the rigid-body name table built from model definitions, and the
    dispatch of received messages in `spin`. Sockets are replaced by the
    sequence of what arrives; printing and sending are recorded as events. */
module Comms {
  import opened Results
  import opened IntFormats
  import opened Common
  import opened MocapFrame
  import opened ModelDefinitions

  // ------------------------------------------------- waiting for a packet id

  /** `uint16_t.unpack(packet[:2])`: the id of a packet; shorter packets raise. */
  function PacketId(p: Bytes): (r: Result<nat>)
    ensures r.Ok? <==> 2 <= |p|
    ensures r.Ok? ==> r.value == p[0] as int + 256 * p[1] as int
  {
    var f :- UIntField(p, 0, UInt16Size);
    UInt16Value(p[0..2]);
    Ok(f.value)
  }

  /** Arrival `k` is a packet with id `id`. */
  predicate Matches(arrivals: seq<Option<Bytes>>, id: nat, k: nat)
    requires k < |arrivals|
  {
    arrivals[k].Some? && PacketId(arrivals[k].value) == Ok(id)
  }

  /** Arrival `k` is a packet the loop passes over: it has an id, not `id`. */
  predicate Discarded(arrivals: seq<Option<Bytes>>, id: nat, k: nat)
    requires k < |arrivals|
  {
    arrivals[k].Some? && PacketId(arrivals[k].value).Ok? && PacketId(arrivals[k].value).value != id
  }

  /** `Connection.wait_for_packet_with_id` from arrival `from` on: the index of the
      packet it returns. A timeout (None) makes the slice raise, a packet shorter
      than two bytes makes the unpack raise. */
  function WaitFrom(arrivals: seq<Option<Bytes>>, id: nat, from: nat): (r: Result<nat>)
    decreases |arrivals| - from
    ensures r.Ok? ==> from <= r.value < |arrivals| && Matches(arrivals, id, r.value)
    ensures r.Ok? ==> forall j :: from <= j < r.value ==> Discarded(arrivals, id, j)
  {
    if from >= |arrivals| then Err(Exhausted)
    else
      match arrivals[from]
      case None => Err(MissingPacket)
      case Some(p) =>
        var received :- PacketId(p);
        if received == id then Ok(from) else WaitFrom(arrivals, id, from + 1)
  }

  /** Conversely, a matching packet preceded only by discarded ones is the one returned. */
  lemma {:induction false} WaitFindsFirstMatch(arrivals: seq<Option<Bytes>>, id: nat, from: nat, k: nat)
    requires from <= k < |arrivals| && Matches(arrivals, id, k)
    requires forall j :: from <= j < k ==> Discarded(arrivals, id, j)
    ensures WaitFrom(arrivals, id, from) == Ok(k)
    decreases k - from
  {
    if from < k {
      assert Discarded(arrivals, id, from);
      WaitFindsFirstMatch(arrivals, id, from + 1, k);
    }
  }

  /** The discard loop itself. */
  method WaitForPacketWithId(arrivals: seq<Option<Bytes>>, id: nat) returns (r: Result<nat>)
    ensures r == WaitFrom(arrivals, id, 0)
  {
    var i := 0;
    while i < |arrivals|
      invariant 0 <= i <= |arrivals|
      invariant WaitFrom(arrivals, id, i) == WaitFrom(arrivals, id, 0)
    {
      if arrivals[i].None? {
        return Err(MissingPacket);
      }
      var received :- PacketId(arrivals[i].value);
      if received == id {
        return Ok(i);
      }
      i := i + 1;
    }
    r := Err(Exhausted);
  }

  // ------------------------------------------------------- the name table

  /** `[m for m in models if type(m) is RigidBodyDescription]`. */
  function RigidBodyDescriptions(models: seq<ModelDescription>): (r: seq<RigidBodyDescription>)
    ensures |r| <= |models|
    ensures forall b :: b in r <==> RigidBodyModel(b) in models
  {
    if |models| == 0 then []
    else
      var init, last := models[..|models| - 1], models[|models| - 1];
      var rest := RigidBodyDescriptions(init);
      assert models == init + [last];
      if last.RigidBodyModel? then rest + [last.rigidBody] else rest
  }

  /** The filter keeps the order of the models: filtering a concatenation
      concatenates the filtered parts. */
  lemma {:induction false} RigidBodyDescriptionsAppend(a: seq<ModelDescription>, b: seq<ModelDescription>)
    ensures RigidBodyDescriptions(a + b) == RigidBodyDescriptions(a) + RigidBodyDescriptions(b)
    decreases |b|
  {
    if |b| > 0 {
      var init, last := b[..|b| - 1], b[|b| - 1];
      assert (a + b)[..|a + b| - 1] == a + init;
      assert (a + b)[|a + b| - 1] == last;
      RigidBodyDescriptionsAppend(a, init);
    } else {
      assert a + b == a;
    }
  }

  /** Model `i` is a rigid body with id `k`, and no later model is. */
  predicate LastRigidBody(models: seq<ModelDescription>, i: int, k: nat)
  {
    && 0 <= i < |models|
    && models[i].RigidBodyModel? && models[i].rigidBody.id == k
    && forall j :: i < j < |models| ==> !(models[j].RigidBodyModel? && models[j].rigidBody.id == k)
  }

  /** `{m.id_: m.name for m in descriptions}`: later entries overwrite earlier ones. */
  function NameTable(descs: seq<RigidBodyDescription>): map<nat, Option<Bytes>>
  {
    if |descs| == 0 then map[]
    else NameTable(descs[..|descs| - 1])[descs[|descs| - 1].id := descs[|descs| - 1].name]
  }

  /** The table has an entry for exactly the ids that occur. */
  lemma {:induction false} NameTableKeys(descs: seq<RigidBodyDescription>, k: nat)
    ensures k in NameTable(descs) <==> exists i :: 0 <= i < |descs| && descs[i].id == k
  {
    if |descs| > 0 {
      var init := descs[..|descs| - 1];
      NameTableKeys(init, k);
      if exists i :: 0 <= i < |init| && init[i].id == k {
        var i :| 0 <= i < |init| && init[i].id == k;
        assert descs[i].id == k;
      }
      if exists i :: 0 <= i < |descs| && descs[i].id == k {
        var i :| 0 <= i < |descs| && descs[i].id == k;
        if i < |init| {
          assert init[i].id == k;
        }
      }
    }
  }

  /** The entry for an id is the name of the last description with that id. */
  lemma {:induction false} NameTableLastWins(descs: seq<RigidBodyDescription>, i: nat)
    requires i < |descs|
    requires forall j :: i < j < |descs| ==> descs[j].id != descs[i].id
    ensures descs[i].id in NameTable(descs) && NameTable(descs)[descs[i].id] == descs[i].name
  {
    if i < |descs| - 1 {
      var init := descs[..|descs| - 1];
      NameTableLastWins(init, i);
    }
  }

  /** A model that is not a rigid body with id `k` leaves the last one in place. */
  lemma LastRigidBodyKept(init: seq<ModelDescription>, last: ModelDescription, i: int, k: nat)
    requires LastRigidBody(init, i, k)
    requires !(last.RigidBodyModel? && last.rigidBody.id == k)
    ensures LastRigidBody(init + [last], i, k)
  {
    var models := init + [last];
    forall j | i < j < |models| ensures !(models[j].RigidBodyModel? && models[j].rigidBody.id == k) {
      if j < |init| {
        assert models[j] == init[j];
      }
    }
  }

  /** The name the table holds for an id is that of the last rigid body in
      the models carrying that id. */
  lemma {:induction false} NameTableFromModels(models: seq<ModelDescription>, k: nat)
    ensures k in NameTable(RigidBodyDescriptions(models)) ==>
      exists i :: LastRigidBody(models, i, k) && NameTable(RigidBodyDescriptions(models))[k] == models[i].rigidBody.name
  {
    if |models| > 0 {
      var n := |models|;
      var init, last := models[..n - 1], models[n - 1];
      assert models == init + [last];
      var descs, rest := RigidBodyDescriptions(models), RigidBodyDescriptions(init);
      NameTableFromModels(init, k);
      if last.RigidBodyModel? && last.rigidBody.id == k {
        assert descs == rest + [last.rigidBody];
        assert descs[..|descs| - 1] == rest;
        assert NameTable(descs)[k] == last.rigidBody.name;
        assert LastRigidBody(models, n - 1, k);
      } else {
        assert NameTable(descs) == NameTable(rest) || NameTable(descs) == NameTable(rest)[last.rigidBody.id := last.rigidBody.name] by {
          if last.RigidBodyModel? {
            assert descs == rest + [last.rigidBody];
            assert descs[..|descs| - 1] == rest;
          }
        }
        if k in NameTable(descs) {
          var i :| LastRigidBody(init, i, k) && NameTable(rest)[k] == init[i].rigidBody.name;
          LastRigidBodyKept(init, last, i, k);
        }
      }
    }
  }

  predicate DistinctIds(descs: seq<RigidBodyDescription>)
  {
    forall i, j :: 0 <= i < j < |descs| ==> descs[i].id != descs[j].id
  }

  /** The table has one entry per description exactly when no id repeats. This
      is the condition of the duplicate-id warning. */
  lemma {:induction false} NameTableSize(descs: seq<RigidBodyDescription>)
    ensures |NameTable(descs)| <= |descs|
    ensures |NameTable(descs)| == |descs| <==> DistinctIds(descs)
  {
    if |descs| > 0 {
      var init, x := descs[..|descs| - 1], descs[|descs| - 1];
      NameTableSize(init);
      NameTableKeys(init, x.id);
      if x.id in NameTable(init) {
        var i :| 0 <= i < |init| && init[i].id == x.id;
        assert descs[i].id == descs[|descs| - 1].id;
      } else {
        assert DistinctIds(descs) <==> DistinctIds(init) by {
          if DistinctIds(init) {
            forall i, j | 0 <= i < j < |descs| ensures descs[i].id != descs[j].id {
              if j < |init| {
                assert init[i].id != init[j].id;
              } else {
                assert descs[i].id == init[i].id;
              }
            }
          }
          if DistinctIds(descs) {
            forall i, j | 0 <= i < j < |init| ensures init[i].id != init[j].id {
              assert descs[i].id != descs[j].id;
            }
          }
        }
      }
    }
  }

  /** `[n for n in names if n not in rigid_body_names.values()]`, in list order. */
  function Ignored(descs: seq<RigidBodyDescription>, values: set<Option<Bytes>>): (r: seq<Option<Bytes>>)
    ensures forall n :: n in r <==> n !in values && exists i :: 0 <= i < |descs| && descs[i].name == n
  {
    if |descs| == 0 then []
    else
      var rest := Ignored(descs[1..], values);
      assert forall i :: 0 < i < |descs| ==> descs[i].name == descs[1..][i - 1].name;
      if descs[0].name !in values then [descs[0].name] + rest else rest
  }

  /** The ignored names keep the order of the descriptions, repeats included:
      the list for `a + b` is that for `a` followed by that for `b`. */
  lemma {:induction false} IgnoredAppend(a: seq<RigidBodyDescription>, b: seq<RigidBodyDescription>,
                                         values: set<Option<Bytes>>)
    ensures Ignored(a + b, values) == Ignored(a, values) + Ignored(b, values)
    decreases |a|
  {
    if |a| == 0 {
      assert a + b == b;
    } else {
      assert (a + b)[0] == a[0];
      assert (a + b)[1..] == a[1..] + b;
      IgnoredAppend(a[1..], b, values);
    }
  }

  /** One description contributes its name exactly when the name is not kept. */
  lemma IgnoredSingle(x: RigidBodyDescription, values: set<Option<Bytes>>)
    ensures Ignored([x], values) == if x.name in values then [] else [x.name]
  {
    assert [x][1..] == [];
  }

  // ------------------------------------------------------- client state

  /** What the client does that is visible outside it. */
  datatype Event<H> =
    | DuplicateIds(ignored: seq<Option<Bytes>>)  // the duplicate streaming id warning
    | Called(handler: H, rigidBodies: seq<RigidBody>, labelledMarkers: seq<LabelledMarker>)
    | Sent(message: MessageId)                   // a message sent on the command socket

  /** One arrival in `spin`, after the header has been decoded: a timeout, a
      frame, model definitions, or a message with any other id. */
  datatype Incoming =
    | TimedOut
    | FrameOfData(frame: MocapFrameMessage)
    | ModelDef(definitions: ModelDefinitionsMessage)
    | Unhandled(id: MessageId)

  datatype ClientState<H> = ClientState(names: map<nat, Option<Bytes>>, callback: Option<H>, log: seq<Event<H>>)

  /** A client as constructed: no names, no callback. */
  function InitialState<H>(): ClientState<H>
  {
    ClientState(map[], None, [])
  }

  /** `handle_model_definitions`. */
  function HandledModelDefinitions<H>(s: ClientState<H>, msg: ModelDefinitionsMessage): ClientState<H>
  {
    var descs := RigidBodyDescriptions(msg.models);
    var table := NameTable(descs);
    var warning := if |descs| > |table| then [DuplicateIds(Ignored(descs, table.Values))] else [];
    ClientState(table, s.callback, s.log + warning)
  }

  /** One pass of the `spin` loop. */
  function Step<H>(s: ClientState<H>, m: Incoming): ClientState<H>
  {
    match m
    case FrameOfData(f) =>
      if s.callback.Some? then
        var request := if TrackedModelsChanged(f) then [Sent(RequestModelDef)] else [];
        s.(log := s.log + [Called(s.callback.value, f.rigidBodies, f.labelledMarkers)] + request)
      else s
    case ModelDef(defs) => HandledModelDefinitions(s, defs)
    case TimedOut => s
    case Unhandled(_) => s
  }

  /** `spin` over the given arrivals. */
  function Run<H>(s: ClientState<H>, ms: seq<Incoming>): ClientState<H>
  {
    if |ms| == 0 then s else Step(Run(s, ms[..|ms| - 1]), ms[|ms| - 1])
  }

  // ------------------------------------------------------- properties

  /** The name table after model definitions maps exactly the rigid-body ids,
      each to the name of the last rigid body with that id; the warning is issued iff some id repeats, and lists the
      names that do not survive in the table. */
  lemma ModelDefinitionsEffect<H>(s: ClientState<H>, msg: ModelDefinitionsMessage, k: nat)
    ensures var t := HandledModelDefinitions(s, msg);
      var descs := RigidBodyDescriptions(msg.models);
      && (k in t.names <==> exists b :: RigidBodyModel(b) in msg.models && b.id == k)
      && (k in t.names ==> exists i :: LastRigidBody(msg.models, i, k) && t.names[k] == msg.models[i].rigidBody.name)
      && t.callback == s.callback
      && (|t.log| == |s.log| + 1 <==> !DistinctIds(descs))
      && (|t.log| == |s.log| || |t.log| == |s.log| + 1)
      && t.log[..|s.log|] == s.log
      && (|t.log| > |s.log| ==> t.log[|s.log|] == DuplicateIds(Ignored(descs, t.names.Values)))
  {
    var descs := RigidBodyDescriptions(msg.models);
    NameTableKeys(descs, k);
    NameTableSize(descs);
    NameTableFromModels(msg.models, k);
    if exists b :: RigidBodyModel(b) in msg.models && b.id == k {
      var b :| RigidBodyModel(b) in msg.models && b.id == k;
      var i :| 0 <= i < |descs| && descs[i] == b;
      assert descs[i].id == k;
    }
    if exists i :: 0 <= i < |descs| && descs[i].id == k {
      var i :| 0 <= i < |descs| && descs[i].id == k;
      assert descs[i] in descs;
    }
  }

  /** What one message does: a frame calls the callback once with its bodies and
      labelled markers, and requests new definitions iff the tracked models
      changed, but only when a callback is set; model definitions replace the
      name table; timeouts and other ids change nothing. The callback is never
      changed. */
  lemma StepEffect<H>(s: ClientState<H>, m: Incoming)
    ensures Step(s, m).callback == s.callback
    ensures !m.ModelDef? ==> Step(s, m).names == s.names
    ensures (m.TimedOut? || m.Unhandled? || (m.FrameOfData? && s.callback.None?)) ==> Step(s, m) == s
    ensures m.FrameOfData? && s.callback.Some? ==>
      Step(s, m).log == s.log + [Called(s.callback.value, m.frame.rigidBodies, m.frame.labelledMarkers)]
                              + (if TrackedModelsChanged(m.frame) then [Sent(RequestModelDef)] else [])
    ensures m.ModelDef? ==> Step(s, m).names == NameTable(RigidBodyDescriptions(m.definitions.models))
  {
  }

  /** The frames among the arrivals, as the callback sees them. */
  function FrameData(ms: seq<Incoming>): seq<(seq<RigidBody>, seq<LabelledMarker>)>
  {
    if |ms| == 0 then []
    else
      var last := ms[|ms| - 1];
      FrameData(ms[..|ms| - 1]) + if last.FrameOfData? then [(last.frame.rigidBodies, last.frame.labelledMarkers)] else []
  }

  /** The arguments of the callback calls in a log. */
  function Calls<H>(log: seq<Event<H>>): seq<(seq<RigidBody>, seq<LabelledMarker>)>
  {
    if |log| == 0 then []
    else
      var last := log[|log| - 1];
      Calls(log[..|log| - 1]) + if last.Called? then [(last.rigidBodies, last.labelledMarkers)] else []
  }

  /** The number of frames that report changed tracked models. */
  function ChangedFrames(ms: seq<Incoming>): nat
  {
    if |ms| == 0 then 0
    else ChangedFrames(ms[..|ms| - 1]) + if ms[|ms| - 1].FrameOfData? && TrackedModelsChanged(ms[|ms| - 1].frame) then 1 else 0
  }

  /** The number of model-definition requests in a log. */
  function Requests<H>(log: seq<Event<H>>): nat
  {
    if |log| == 0 then 0
    else Requests(log[..|log| - 1]) + if log[|log| - 1].Sent? && log[|log| - 1].message == RequestModelDef then 1 else 0
  }

  lemma {:induction false} CallsAppend<H>(a: seq<Event<H>>, b: seq<Event<H>>)
    ensures Calls(a + b) == Calls(a) + Calls(b)
    ensures Requests(a + b) == Requests(a) + Requests(b)
  {
    if |b| > 0 {
      assert (a + b)[..|a + b| - 1] == a + b[..|b| - 1];
      CallsAppend(a, b[..|b| - 1]);
    } else {
      assert a + b == a;
    }
  }

  /** The events a frame adds when a callback is set. */
  lemma FrameEvents<H>(h: H, f: MocapFrameMessage)
    ensures var added := [Called(h, f.rigidBodies, f.labelledMarkers)] + (if TrackedModelsChanged(f) then [Sent(RequestModelDef)] else []);
      && Calls(added) == [(f.rigidBodies, f.labelledMarkers)]
      && Requests(added) == if TrackedModelsChanged(f) then 1 else 0
  {
    var call: Event<H> := Called(h, f.rigidBodies, f.labelledMarkers);
    var request: seq<Event<H>> := if TrackedModelsChanged(f) then [Sent(RequestModelDef)] else [];
    CallsAppend([call], request);
    assert [call][..0] == [];
    if TrackedModelsChanged(f) {
      assert request[..0] == [];
    }
  }

  /** Model definitions add at most a warning, which is neither a call nor a request. */
  lemma DefinitionEvents<H>(t: ClientState<H>, defs: ModelDefinitionsMessage)
    ensures var added := HandledModelDefinitions(t, defs).log[|t.log|..];
      && HandledModelDefinitions(t, defs).log == t.log + added
      && Calls(added) == [] && Requests(added) == 0
  {
    var added := HandledModelDefinitions(t, defs).log[|t.log|..];
    ModelDefinitionsEffect(t, defs, 0);
    if |added| > 0 {
      assert added == [added[0]];
      assert added[..0] == [];
    }
  }

  /** One message adds at most a callback call (with the frame's bodies and
      markers) and a request to the log, and only for a frame with a callback set. */
  lemma StepLog<H>(t: ClientState<H>, m: Incoming)
    ensures |t.log| <= |Step(t, m).log| && Step(t, m).log[..|t.log|] == t.log
    ensures Calls(Step(t, m).log) == Calls(t.log) +
      if t.callback.Some? && m.FrameOfData? then [(m.frame.rigidBodies, m.frame.labelledMarkers)] else []
    ensures Requests(Step(t, m).log) == Requests(t.log) +
      if t.callback.Some? && m.FrameOfData? && TrackedModelsChanged(m.frame) then 1 else 0
  {
    if m.FrameOfData? && t.callback.Some? {
      var added := [Called(t.callback.value, m.frame.rigidBodies, m.frame.labelledMarkers)]
                 + (if TrackedModelsChanged(m.frame) then [Sent(RequestModelDef)] else []);
      assert Step(t, m).log == t.log + added;
      CallsAppend(t.log, added);
      FrameEvents(t.callback.value, m.frame);
    } else if m.ModelDef? {
      var added := Step(t, m).log[|t.log|..];
      DefinitionEvents(t, m.definitions);
      CallsAppend(t.log, added);
    } else {
      assert Step(t, m) == t;
    }
  }

  /** Over a whole `spin`: the callback is called once per frame, in arrival
      order, with that frame's bodies and markers, and new definitions are
      requested once per frame with changed tracked models, both only when a
      callback is set; nothing is called or requested otherwise. Earlier
      events stay as they were. */
  lemma {:induction false} SpinCallsPerFrame<H>(s: ClientState<H>, ms: seq<Incoming>)
    ensures Run(s, ms).callback == s.callback
    ensures |s.log| <= |Run(s, ms).log| && Run(s, ms).log[..|s.log|] == s.log
    ensures Calls(Run(s, ms).log) == Calls(s.log) + if s.callback.Some? then FrameData(ms) else []
    ensures Requests(Run(s, ms).log) == Requests(s.log) + if s.callback.Some? then ChangedFrames(ms) else 0
  {
    if |ms| > 0 {
      var init, m := ms[..|ms| - 1], ms[|ms| - 1];
      SpinCallsPerFrame(s, init);
      var t := Run(s, init);
      StepEffect(t, m);
      StepLog(t, m);
      assert Run(s, ms) == Step(t, m);
      assert Step(t, m).log[..|s.log|] == Step(t, m).log[..|t.log|][..|s.log|];
    }
  }

  /** A `spin` without model definitions leaves the name table as it was. */
  lemma {:induction false} SpinKeepsNames<H>(s: ClientState<H>, ms: seq<Incoming>)
    requires forall i :: 0 <= i < |ms| ==> !ms[i].ModelDef?
    ensures Run(s, ms).names == s.names
  {
    if |ms| > 0 {
      var init := ms[..|ms| - 1];
      assert forall i :: 0 <= i < |init| ==> init[i] == ms[i];
      SpinKeepsNames(s, init);
      StepEffect(Run(s, init), ms[|ms| - 1]);
    }
  }

  /** After a `spin`, the name table comes from the last model definitions that
      arrived. */
  lemma {:induction false} SpinNames<H>(s: ClientState<H>, ms: seq<Incoming>, i: nat)
    requires i < |ms| && ms[i].ModelDef?
    requires forall j :: i < j < |ms| ==> !ms[j].ModelDef?
    ensures Run(s, ms).names == NameTable(RigidBodyDescriptions(ms[i].definitions.models))
  {
    var init := ms[..|ms| - 1];
    StepEffect(Run(s, init), ms[|ms| - 1]);
    if i < |ms| - 1 {
      assert forall j :: 0 <= j < |init| ==> init[j] == ms[j];
      SpinNames(s, init, i);
    }
  }

  // ------------------------------------------------------- the client

  /** `Client.connect(cls, server_ip)`: a classmethod that takes one argument
      after the class. */
  const ConnectParameters: nat := 1

  class Client<H> {
    var rigidBodyNames: map<nat, Option<Bytes>>
    var callback: Option<H>
    var log: seq<Event<H>>

    function State(): ClientState<H>
      reads this
    {
      ClientState(rigidBodyNames, callback, log)
    }

    /** `Client(conn, server_info)`: an empty name table and no callback. */
    constructor ()
      ensures State() == InitialState()
    {
      rigidBodyNames := map[];
      callback := None;
      log := [];
    }

    /** `set_callback`: replaces the stored callback and nothing else. */
    method SetCallback(cb: Option<H>)
      modifies this
      ensures State() == old(State()).(callback := cb)
    {
      callback := cb;
    }

    method HandleModelDefinitions(msg: ModelDefinitionsMessage)
      modifies this
      ensures State() == HandledModelDefinitions(old(State()), msg)
    {
      var descs := RigidBodyDescriptions(msg.models);
      rigidBodyNames := NameTable(descs);
      if |descs| > |rigidBodyNames| {
        log := log + [DuplicateIds(Ignored(descs, rigidBodyNames.Values))];
      }
    }

    /** `spin`: dispatch every arrival in turn. */
    method Spin(incoming: seq<Incoming>)
      modifies this
      ensures State() == Run(old(State()), incoming)
    {
      var i := 0;
      while i < |incoming|
        invariant 0 <= i <= |incoming|
        invariant State() == Run(old(State()), incoming[..i])
      {
        assert incoming[..i + 1][..i] == incoming[..i];
        match incoming[i] {
          case FrameOfData(f) =>
            if callback.Some? {
              log := log + [Called(callback.value, f.rigidBodies, f.labelledMarkers)];
              if TrackedModelsChanged(f) {
                log := log + [Sent(RequestModelDef)];
              }
            }
          case ModelDef(defs) =>
            HandleModelDefinitions(defs);
          case TimedOut =>
          case Unhandled(_) =>
        }
        i := i + 1;
      }
      assert incoming[..i] == incoming;
    }
  }
}
