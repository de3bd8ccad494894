/** The command-line client application: choosing where frames come from,
    registering a callback, printing one line per rigid body, and the quiet
    mode that prints a heartbeat at most once a second. The clock is passed in
    as readings, and printed lines are collected as values. */
module ClientDemo {
  import opened Results
  import opened Poses
  import opened Comms

  /** The two bound methods `run` can register. */
  datatype Handler = PrintBodies | PrintHeartbeat

  /** A printed line: the quiet-mode dot, the "Rigid bodies:" header, or the
      id, position and angles of one body. */
  datatype Line = Heartbeat | RigidBodiesHeader | BodyLine(id: nat, position: (real, real, real), angles: Euler)

  /** Where `connect` gets its client: the fake source at a rate, or a server. */
  datatype Source = FakeSource(rate: real) | ServerSource(name: Option<string>)

  /** The client `connect` asks for: the fake one iff the server name is "fake". */
  function SourceFor(serverName: Option<string>, rate: real): (s: Source)
    ensures s.FakeSource? <==> serverName == Some("fake")
    ensures s.FakeSource? ==> s.rate == rate
    ensures s.ServerSource? ==> s.name == serverName
  {
    if serverName == Some("fake") then FakeSource(rate) else ServerSource(serverName)
  }

  /** The callback `run` registers: the heartbeat one iff the app is quiet. */
  function HandlerFor(quiet: bool): (h: Handler)
    ensures h == PrintHeartbeat <==> quiet
  {
    if quiet then PrintHeartbeat else PrintBodies
  }

  // ------------------------------------------------------------ quiet mode

  /** The two `time.time()` readings of one `callback_quiet` call: the one compared
      and the one stored. */
  datatype Reading = Reading(compared: real, stored: real)

  /** `callback_quiet` prints iff more than a second has passed since the last print. */
  predicate QuietPrints(last: real, r: Reading)
  {
    r.compared - last > 1.0
  }

  /** `_last_printed` after one call. */
  function QuietLast(last: real, r: Reading): real
  {
    if QuietPrints(last, r) then r.stored else last
  }

  /** The values stored at each heartbeat over a run of calls. */
  function Heartbeats(last: real, rs: seq<Reading>): seq<real>
    decreases |rs|
  {
    if |rs| == 0 then []
    else (if QuietPrints(last, rs[0]) then [rs[0].stored] else []) + Heartbeats(QuietLast(last, rs[0]), rs[1..])
  }

  /** Within each call the stored reading is not earlier than the compared one. */
  predicate ClockForward(rs: seq<Reading>)
  {
    forall i :: 0 <= i < |rs| ==> rs[i].compared <= rs[i].stored
  }

  /** The first heartbeat comes more than a second after `last`. */
  lemma {:induction false} FirstHeartbeat(last: real, rs: seq<Reading>)
    requires ClockForward(rs)
    ensures |Heartbeats(last, rs)| > 0 ==> Heartbeats(last, rs)[0] - last > 1.0
    decreases |rs|
  {
    if |rs| > 0 && !QuietPrints(last, rs[0]) {
      assert ClockForward(rs[1..]) by {
        assert forall i :: 0 <= i < |rs[1..]| ==> rs[1..][i] == rs[i + 1];
      }
      FirstHeartbeat(last, rs[1..]);
    }
  }

  /** Consecutive values are more than a second apart. */
  predicate SecondApart(hs: seq<real>)
  {
    forall i :: 0 <= i < |hs| - 1 ==> hs[i + 1] - hs[i] > 1.0
  }

  /** With a clock that does not run backwards within a call, consecutive
      heartbeats are more than a second apart. */
  lemma {:induction false} HeartbeatsApart(last: real, rs: seq<Reading>)
    requires ClockForward(rs)
    ensures SecondApart(Heartbeats(last, rs))
    decreases |rs|
  {
    if |rs| > 0 {
      var next := QuietLast(last, rs[0]);
      assert ClockForward(rs[1..]) by {
        assert forall i :: 0 <= i < |rs[1..]| ==> rs[1..][i] == rs[i + 1];
      }
      HeartbeatsApart(next, rs[1..]);
      var hs, rest := Heartbeats(last, rs), Heartbeats(next, rs[1..]);
      if QuietPrints(last, rs[0]) {
        FirstHeartbeat(next, rs[1..]);
        assert hs == [next] + rest;
        forall i | 0 <= i < |hs| - 1 ensures hs[i + 1] - hs[i] > 1.0 {
          assert hs[i + 1] == rest[i];
          if i > 0 {
            assert hs[i] == rest[i - 1];
          } else {
            assert hs[i] == next;
          }
        }
      } else {
        assert hs == rest;
      }
    }
  }

  // ------------------------------------------------------------ printing

  /** The line printed for one body: its id, its position, and the angles of its
      orientation. */
  function LineOf(b: BodyPose): Line
  {
    BodyLine(b.id, b.position, BodyEuler(b))
  }

  /** The line of each body, in list order. */
  function BodyLines(bodies: seq<BodyPose>): (r: seq<Line>)
    ensures |r| == |bodies|
  {
    if |bodies| == 0 then []
    else BodyLines(bodies[..|bodies| - 1]) + [LineOf(bodies[|bodies| - 1])]
  }

  /** Line `i` is the line of body `i`. */
  lemma {:induction false} BodyLinesAt(bodies: seq<BodyPose>, i: nat)
    requires i < |bodies|
    ensures BodyLines(bodies)[i] == LineOf(bodies[i])
  {
    var init := bodies[..|bodies| - 1];
    if i < |init| {
      BodyLinesAt(init, i);
      assert init[i] == bodies[i];
    }
  }

  /** What `callback` prints: nothing for no bodies, else the header and then
      one line per body. */
  function CallbackLines(bodies: seq<BodyPose>): seq<Line>
  {
    if |bodies| == 0 then [] else [RigidBodiesHeader] + BodyLines(bodies)
  }

  /** Nothing is printed for no bodies; otherwise the header comes first and
      line `i + 1` is the line of body `i`. */
  lemma CallbackLinesShape(bodies: seq<BodyPose>, i: nat)
    ensures |bodies| == 0 <==> CallbackLines(bodies) == []
    ensures |bodies| > 0 ==> |CallbackLines(bodies)| == |bodies| + 1 && CallbackLines(bodies)[0] == RigidBodiesHeader
    ensures i < |bodies| ==> CallbackLines(bodies)[i + 1] == LineOf(bodies[i])
  {
    if i < |bodies| {
      BodyLinesAt(bodies, i);
    }
  }

  // ------------------------------------------------------------ the app

  class ClientApp {
    const client: Client<Handler>
    const quiet: bool
    var lastPrinted: real
    var output: seq<Line>

    /** `ClientApp(client, quiet)`: `_last_printed` starts at 0. */
    constructor (client: Client<Handler>, quiet: bool)
      ensures this.client == client && this.quiet == quiet
      ensures lastPrinted == 0.0 && output == []
    {
      this.client := client;
      this.quiet := quiet;
      lastPrinted := 0.0;
      output := [];
    }

    /** `run`: register the callback the mode asks for, then spin. */
    method Run(incoming: seq<Incoming>)
      modifies client
      ensures client.State() == Comms.Run(old(client.State()).(callback := Some(HandlerFor(quiet))), incoming)
    {
      if quiet {
        client.SetCallback(Some(PrintHeartbeat));
      } else {
        client.SetCallback(Some(PrintBodies));
      }
      client.Spin(incoming);
    }

    /** `callback`: one line per rigid body after a header; markers and timing are not printed. */
    method Callback(bodies: seq<BodyPose>)
      modifies this
      ensures output == old(output) + CallbackLines(bodies)
      ensures lastPrinted == old(lastPrinted)
    {
      if |bodies| > 0 {
        ghost var before := output;
        output := output + [RigidBodiesHeader];
        PrintBodyLines(bodies);
        assert output == before + ([RigidBodiesHeader] + BodyLines(bodies));
      }
    }

    /** The `for b in rigid_bodies` loop of `callback`. */
    method PrintBodyLines(bodies: seq<BodyPose>)
      modifies this
      ensures output == old(output) + BodyLines(bodies)
      ensures lastPrinted == old(lastPrinted)
    {
      var i := 0;
      while i < |bodies|
        invariant 0 <= i <= |bodies|
        invariant output == old(output) + BodyLines(bodies[..i])
        invariant lastPrinted == old(lastPrinted)
      {
        var b := bodies[i];
        ghost var prefix := bodies[..i + 1];
        assert prefix[..i] == bodies[..i] && prefix[i] == b;
        output := output + [LineOf(b)];
        i := i + 1;
      }
      assert bodies[..i] == bodies;
    }

    /** `callback_quiet`: a dot, and the second reading stored, iff more than a
        second has passed since the last dot. */
    method CallbackQuiet(r: Reading)
      modifies this
      ensures lastPrinted == QuietLast(old(lastPrinted), r)
      ensures output == old(output) + if QuietPrints(old(lastPrinted), r) then [Heartbeat] else []
    {
      if r.compared - lastPrinted > 1.0 {
        output := output + [Heartbeat];
        lastPrinted := r.stored;
      }
    }
  }

  /** `ClientApp.connect`: `connected` is what connecting to `SourceFor(serverName,
      rate)` gave; no app without a client. */
  method Connect(connected: Client?<Handler>, quiet: bool) returns (app: ClientApp?)
    ensures app == null <==> connected == null
    ensures app != null ==> fresh(app) && app.client == connected && app.quiet == quiet
    ensures app != null ==> app.lastPrinted == 0.0 && app.output == []
  {
    if connected == null {
      return null;
    }
    app := new ClientApp(connected, quiet);
  }
}
