/** The Romi robot demo: an app that keeps the pose of the last rigid body it
    was given, as position and roll/pitch/yaw fields. */
module RomiDemo {
  import opened Poses
  import opened Comms

  /** The six pose fields, in the order `x, y, z, roll, pitch, yaw`. */
  datatype PoseFields = PoseFields(x: real, y: real, z: real, roll: Angle, pitch: Angle, yaw: Angle)

  /** The fields one body sets: its position, and the angles of its orientation. */
  function FieldsOf(b: BodyPose): (f: PoseFields)
    ensures (f.x, f.y, f.z) == b.position
    ensures Euler(f.roll, f.pitch, f.yaw) == BodyEuler(b)
  {
    var e := BodyEuler(b);
    PoseFields(b.position.0, b.position.1, b.position.2, e.roll, e.pitch, e.yaw)
  }

  /** The pose fields after `run`. */
  const Zero: PoseFields := PoseFields(0.0, 0.0, 0.0, Number(0.0), Number(0.0), Number(0.0))

  /** The pitch the app records lies in the range of `asin`'s argument: its
      argument is clamped, and left as it is when already in [-1, 1]. */
  lemma RecordedPitch(b: BodyPose)
    ensures FieldsOf(b).pitch.Asin? && -1.0 <= FieldsOf(b).pitch.s <= 1.0
    ensures var (qx, qy, qz, qw) := b.orientation;
      -1.0 <= 2.0 * (qw * qy - qz * qx) <= 1.0 ==> FieldsOf(b).pitch == Asin(2.0 * (qw * qy - qz * qx))
  {
  }

  class RomiApp<H> {
    const client: Client<H>
    var x: real
    var y: real
    var z: real
    var roll: Angle
    var pitch: Angle
    var yaw: Angle

    function Fields(): PoseFields
      reads this
    {
      PoseFields(x, y, z, roll, pitch, yaw)
    }

    /** `ClientApp(client)`: the pose fields are not set until `run`. */
    constructor (client: Client<H>)
      ensures this.client == client
    {
      this.client := client;
    }

    /** `run`: all six fields become 0. */
    method Run()
      modifies this
      ensures Fields() == Zero
    {
      x, y, z, roll, pitch, yaw := 0.0, 0.0, 0.0, Number(0.0), Number(0.0), Number(0.0);
    }

    /** `callback`: every body overwrites the fields in turn, so the last body
        wins; with no bodies nothing changes. */
    method Callback(bodies: seq<BodyPose>)
      modifies this
      ensures |bodies| == 0 ==> Fields() == old(Fields())
      ensures |bodies| > 0 ==> Fields() == FieldsOf(bodies[|bodies| - 1])
    {
      var i := 0;
      while i < |bodies|
        invariant 0 <= i <= |bodies|
        invariant i == 0 ==> Fields() == old(Fields())
        invariant i > 0 ==> Fields() == FieldsOf(bodies[i - 1])
      {
        var b := bodies[i];
        var e := BodyEuler(b);
        roll, pitch, yaw := e.roll, e.pitch, e.yaw;
        x, y, z := b.position.0, b.position.1, b.position.2;
        i := i + 1;
      }
    }
  }

  /** The outcome of a Python call: the value it returned, or the TypeError
      raised when the number of arguments does not match the parameters. */
  datatype Call<T> = Returned(value: T) | TypeError

  /** `ClientApp.connect`, with `argc` arguments passed to
      `natnet.Client.connect`, and `connected` the client that connecting
      would give: the call raises TypeError unless `argc` matches the one
      parameter, and otherwise there is an app exactly when there is a
      client. */
  method ConnectWith<H>(argc: nat, connected: Client?<H>) returns (r: Call<RomiApp?<H>>)
    ensures r.TypeError? <==> argc != ConnectParameters
    ensures r.Returned? ==> (r.value == null <==> connected == null)
    ensures r.Returned? && r.value != null ==> fresh(r.value) && r.value.client == connected
  {
    if argc != ConnectParameters {
      return TypeError;
    }
    if connected == null {
      return Returned(null);
    }
    var app := new RomiApp(connected);
    r := Returned(app);
  }

  /** `ClientApp.connect` as written passes `server_name` and `True`, two
      arguments, so it raises TypeError whatever the server, and the
      `client is None` test after the call is never reached. */
  method ConnectAsWritten<H>(connected: Client?<H>) returns (r: Call<RomiApp?<H>>)
    ensures r == TypeError
  {
    r := ConnectWith(2, connected);
  }

  /** `ClientApp.connect` as evidently intended, passing only `server_name`:
      there is an app exactly when there is a client, and it holds that
      client. */
  method Connect<H>(connected: Client?<H>) returns (app: RomiApp?<H>)
    ensures app == null <==> connected == null
    ensures app != null ==> fresh(app) && app.client == connected
  {
    var r := ConnectWith(1, connected);
    app := r.value;
  }
}
