/**
 * The drive script: four axes on one bus, each switched on or off by a
 * flag, the barrier that waits for every enabled axis to report a state,
 * and the tank-drive mixing of the joystick into right and left speeds.
 */
module Run {
  import opened Wrappers
  import opened Bytes
  import opened CanSimple

  const CLOSED_LOOP_CONTROL: int := 8
  const IDLE: int := 1
  const MAX_SPEED: real := 15.0

  // ---- Tank drive

  /** max(-1, min(1, v)). */
  function Clamp(v: real): (r: real)
    ensures -1.0 <= r <= 1.0
    ensures -1.0 <= v <= 1.0 ==> r == v
    ensures v > 1.0 ==> r == 1.0
    ensures v < -1.0 ==> r == -1.0
  {
    if v < -1.0 then -1.0 else if v > 1.0 then 1.0 else v
  }

  /** The (left, right) speeds for a stick position: y plus and minus x, each clamped to [-1, 1]. */
  function TankDrive(x: real, y: real): (real, real)
  {
    (Clamp(y + x), Clamp(y - x))
  }

  /** Both speeds lie in [-1, 1]. */
  lemma TankDriveBounded(x: real, y: real)
    ensures -1.0 <= TankDrive(x, y).0 <= 1.0 && -1.0 <= TankDrive(x, y).1 <= 1.0
  {
  }

  /** A mix that stays within range is passed through unchanged. */
  lemma TankDriveExactInRange(x: real, y: real)
    ensures -1.0 <= y + x <= 1.0 ==> TankDrive(x, y).0 == y + x
    ensures -1.0 <= y - x <= 1.0 ==> TankDrive(x, y).1 == y - x
  {
  }

  /** Mirroring the stick sideways swaps the two speeds. */
  lemma TankDriveMirror(x: real, y: real)
    ensures TankDrive(-x, y) == (TankDrive(x, y).1, TankDrive(x, y).0)
  {
    assert y + -x == y - x && y - -x == y + x;
  }

  /** Pushing straight ahead or back drives both sides alike. */
  lemma TankDriveStraight(y: real)
    ensures TankDrive(0.0, y).0 == TankDrive(0.0, y).1
  {
  }

  // ---- Velocity commands

  /** A set_velocity request to a node; its float payload is not modelled. */
  datatype Velocity = Velocity(node: nat, speed: real)

  // ---- The robot

  /** One axis as the barrier sees it: its node id and whether it is switched on. */
  datatype Axis = Axis(nodeId: nat, enabled: bool)

  /** Whether msg is a heartbeat of node reporting state stateWaited. */
  predicate Latches(node: nat, stateWaited: int, msg: Frame)
  {
    msg.id == ArbitrationId(node, HEARTBEAT_CMD) && DecodeHeartbeat(msg.data).Success?
    && DecodeHeartbeat(msg.data).value.state == stateWaited
  }

  /** Whether some message of msgs latches node. */
  predicate LatchedBy(node: nat, stateWaited: int, msgs: seq<Frame>)
  {
    msgs != [] && (LatchedBy(node, stateWaited, msgs[..|msgs| - 1]) || Latches(node, stateWaited, msgs[|msgs| - 1]))
  }

  /** Every axis is latched by msgs or switched off. */
  predicate AllReady(axes: seq<Axis>, stateWaited: int, msgs: seq<Frame>)
  {
    forall k :: 0 <= k < |axes| ==> !axes[k].enabled || LatchedBy(axes[k].nodeId, stateWaited, msgs)
  }

  /** A heartbeat of one of the axes, switched on or not, too short to decode. */
  predicate MalformedFor(axes: seq<Axis>, msg: Frame)
  {
    exists k :: 0 <= k < |axes| && msg.id == ArbitrationId(axes[k].nodeId, HEARTBEAT_CMD) && |msg.data| < 7
  }

  /** Every axis is latched or off once msgs[j] has been read. */
  predicate ReadyAt(axes: seq<Axis>, stateWaited: int, msgs: seq<Frame>, j: nat)
    requires j < |msgs|
  {
    AllReady(axes, stateWaited, msgs[..j + 1])
  }

  /** What the barrier does after one message: go on, raise, or release. */
  datatype Verdict = Continue | Raise | Release

  /** The verdict at msgs[j]: a malformed heartbeat raises, else every axis latched or off releases. */
  function VerdictAt(axes: seq<Axis>, stateWaited: int, msgs: seq<Frame>, j: nat): Verdict
    requires j < |msgs|
  {
    if MalformedFor(axes, msgs[j]) then Raise
    else if ReadyAt(axes, stateWaited, msgs, j) then Release
    else Continue
  }

  /** The verdict after each message. */
  function Verdicts(axes: seq<Axis>, stateWaited: int, msgs: seq<Frame>): (vs: seq<Verdict>)
    ensures |vs| == |msgs|
  {
    seq(|msgs|, j requires 0 <= j < |msgs| => VerdictAt(axes, stateWaited, msgs, j))
  }

  /**
   * The index of the first verdict from i on that is not Continue: a release
   * there is a success, a raise a struct error; with none, a timeout.
   */
  function FirstStop(vs: seq<Verdict>, i: nat): (r: Result<nat, Error>)
    decreases |vs| - i
  {
    if i >= |vs| then Failure(Timeout)
    else match vs[i]
      case Raise => Failure(StructError)
      case Release => Success(i)
      case Continue => FirstStop(vs, i + 1)
  }

  /** Where waitState stops on msgs: the index of the releasing message, or why it did not release. */
  function Barrier(axes: seq<Axis>, stateWaited: int, msgs: seq<Frame>): Result<nat, Error>
  {
    FirstStop(Verdicts(axes, stateWaited, msgs), 0)
  }

  /** The first stop from i on lies at or after i, every verdict before it is Continue, and it is the verdict the result names. */
  lemma {:induction false} FirstStopSpec(vs: seq<Verdict>, i: nat)
    ensures FirstStop(vs, i).Success? ==>
      var k := FirstStop(vs, i).value; i <= k < |vs| && vs[k] == Release && forall j :: i <= j < k ==> vs[j] == Continue
    ensures FirstStop(vs, i) == Failure(StructError) ==>
      exists k :: i <= k < |vs| && vs[k] == Raise && forall j :: i <= j < k ==> vs[j] == Continue
    ensures FirstStop(vs, i) == Failure(Timeout) <==> forall j :: i <= j < |vs| ==> vs[j] == Continue
    decreases |vs| - i
  {
    if i < |vs| {
      FirstStopSpec(vs, i + 1);
    }
  }

  /** A latch, once set, stays set as more messages come in. */
  lemma {:induction false} LatchStaysSet(node: nat, stateWaited: int, msgs: seq<Frame>, n: nat)
    requires n <= |msgs| && LatchedBy(node, stateWaited, msgs[..n])
    ensures LatchedBy(node, stateWaited, msgs)
    decreases |msgs| - n
  {
    if n < |msgs| {
      assert msgs[..n + 1][..n] == msgs[..n];
      LatchStaysSet(node, stateWaited, msgs, n + 1);
    } else {
      assert msgs[..n] == msgs;
    }
  }

  /** One more message sets a latch exactly when it latches the node itself. */
  lemma LatchStep(node: nat, stateWaited: int, msgs: seq<Frame>, i: nat)
    requires i < |msgs|
    ensures LatchedBy(node, stateWaited, msgs[..i + 1])
      <==> LatchedBy(node, stateWaited, msgs[..i]) || Latches(node, stateWaited, msgs[i])
  {
    assert msgs[..i + 1][..i] == msgs[..i];
  }

  /** A latch is set exactly by a heartbeat of its node reporting the awaited state. */
  lemma {:induction false} LatchedByIff(node: nat, stateWaited: int, msgs: seq<Frame>)
    ensures LatchedBy(node, stateWaited, msgs) <==> exists k :: 0 <= k < |msgs| && Latches(node, stateWaited, msgs[k])
    decreases |msgs|
  {
    if msgs != [] {
      var front := msgs[..|msgs| - 1];
      LatchedByIff(node, stateWaited, front);
      if LatchedBy(node, stateWaited, front) {
        var k :| 0 <= k < |front| && Latches(node, stateWaited, front[k]);
        assert msgs[k] == front[k];
      }
      if k :| 0 <= k < |msgs| && Latches(node, stateWaited, msgs[k]) {
        if k < |front| {
          assert front[k] == msgs[k];
        }
      }
    }
  }

  /** A sent heartbeat latches its node exactly when it reports the awaited state. */
  lemma HeartbeatLatches(node: nat, stateWaited: int, h: Heartbeat, padding: seq<byte>, extended: bool)
    requires h.error < Pow256(4)
    ensures Latches(node, stateWaited, Frame(ArbitrationId(node, HEARTBEAT_CMD), EncodeHeartbeat(h) + padding, extended))
      <==> h.state == stateWaited
  {
    HeartbeatRoundTrip(h, padding);
  }

  /**
   * The barrier releases at the first message after which every axis is
   * latched or off, with no malformed heartbeat up to it.
   */
  lemma BarrierReleasesAtFirstReady(axes: seq<Axis>, stateWaited: int, msgs: seq<Frame>)
    requires Barrier(axes, stateWaited, msgs).Success?
    ensures var k := Barrier(axes, stateWaited, msgs).value;
      k < |msgs| && ReadyAt(axes, stateWaited, msgs, k) && !MalformedFor(axes, msgs[k])
    ensures var k := Barrier(axes, stateWaited, msgs).value;
      forall j :: 0 <= j < k ==> !ReadyAt(axes, stateWaited, msgs, j)
    ensures var k := Barrier(axes, stateWaited, msgs).value;
      forall j :: 0 <= j < k ==> !MalformedFor(axes, msgs[j])
  {
    var vs := Verdicts(axes, stateWaited, msgs);
    FirstStopSpec(vs, 0);
    var k := Barrier(axes, stateWaited, msgs).value;
    assert vs[k] == VerdictAt(axes, stateWaited, msgs, k);
    forall j | 0 <= j < k
      ensures !ReadyAt(axes, stateWaited, msgs, j)
    {
      assert vs[j] == VerdictAt(axes, stateWaited, msgs, j);
    }
    forall j | 0 <= j < k
      ensures !MalformedFor(axes, msgs[j])
    {
      assert vs[j] == VerdictAt(axes, stateWaited, msgs, j);
    }
  }

  /** The barrier raises only at a malformed heartbeat that comes before any release. */
  lemma BarrierRaisesAtMalformed(axes: seq<Axis>, stateWaited: int, msgs: seq<Frame>)
    requires Barrier(axes, stateWaited, msgs) == Failure(StructError)
    ensures exists k :: 0 <= k < |msgs| && MalformedFor(axes, msgs[k]) && NoStopBefore(axes, stateWaited, msgs, k)
  {
    var vs := Verdicts(axes, stateWaited, msgs);
    FirstStopSpec(vs, 0);
    var k :| 0 <= k < |vs| && vs[k] == Raise && forall j :: 0 <= j < k ==> vs[j] == Continue;
    assert vs[k] == VerdictAt(axes, stateWaited, msgs, k);
    NoStopFromVerdicts(axes, stateWaited, msgs, k);
  }

  /** The barrier times out exactly when no message releases it and none is a malformed heartbeat. */
  lemma BarrierTimesOutIff(axes: seq<Axis>, stateWaited: int, msgs: seq<Frame>)
    ensures Barrier(axes, stateWaited, msgs) == Failure(Timeout) <==> NoStopBefore(axes, stateWaited, msgs, |msgs|)
  {
    var vs := Verdicts(axes, stateWaited, msgs);
    FirstStopSpec(vs, 0);
    if NoStopBefore(axes, stateWaited, msgs, |msgs|) {
      forall j | 0 <= j < |vs|
        ensures vs[j] == Continue
      {
        assert vs[j] == VerdictAt(axes, stateWaited, msgs, j);
      }
    }
    if Barrier(axes, stateWaited, msgs) == Failure(Timeout) {
      NoStopFromVerdicts(axes, stateWaited, msgs, |msgs|);
    }
  }

  /** No message before msgs[n] releases the barrier or is a malformed heartbeat. */
  predicate NoStopBefore(axes: seq<Axis>, stateWaited: int, msgs: seq<Frame>, n: nat)
    requires n <= |msgs|
  {
    (forall j :: 0 <= j < n ==> !ReadyAt(axes, stateWaited, msgs, j))
    && (forall j :: 0 <= j < n ==> !MalformedFor(axes, msgs[j]))
  }

  /** Verdicts that all go on before n mean no message before n stops the barrier. */
  lemma NoStopFromVerdicts(axes: seq<Axis>, stateWaited: int, msgs: seq<Frame>, n: nat)
    requires n <= |msgs|
    requires forall j :: 0 <= j < n ==> Verdicts(axes, stateWaited, msgs)[j] == Continue
    ensures NoStopBefore(axes, stateWaited, msgs, n)
  {
    var vs := Verdicts(axes, stateWaited, msgs);
    forall j | 0 <= j < n
      ensures !ReadyAt(axes, stateWaited, msgs, j)
    {
      assert vs[j] == VerdictAt(axes, stateWaited, msgs, j);
    }
    forall j | 0 <= j < n
      ensures !MalformedFor(axes, msgs[j])
    {
      assert vs[j] == VerdictAt(axes, stateWaited, msgs, j);
    }
  }

  /** With every axis switched off, the barrier stops at the first message. */
  lemma AllOffReleasesAtOnce(axes: seq<Axis>, stateWaited: int, msgs: seq<Frame>)
    requires forall k :: 0 <= k < |axes| ==> !axes[k].enabled
    requires msgs != [] && !MalformedFor(axes, msgs[0])
    ensures Barrier(axes, stateWaited, msgs) == Success(0)
  {
  }

  /** The set-state frame for one axis: one frame when it is switched on, none otherwise. */
  function StateFrame(axis: Axis, state: int): (fs: seq<Frame>)
    requires 0 <= state < Pow256(4)
  {
    if axis.enabled then [Frame(ArbitrationId(axis.nodeId, SET_AXIS_STATE_CMD), LittleEndian(state, 4), false)] else []
  }

  /** The set-state frames to the axes that are switched on, in order. */
  function StateFrames(axes: seq<Axis>, state: int): (fs: seq<Frame>)
    requires 0 <= state < Pow256(4)
    ensures |fs| <= |axes|
  {
    if axes == [] then [] else StateFrame(axes[0], state) + StateFrames(axes[1..], state)
  }

  /** The frames for four axes, one axis after the other. */
  lemma StateFramesOfFour(a: Axis, b: Axis, c: Axis, d: Axis, state: int)
    requires 0 <= state < Pow256(4)
    ensures StateFrames([a, b, c, d], state)
      == StateFrame(a, state) + StateFrame(b, state) + StateFrame(c, state) + StateFrame(d, state)
  {
    var fa, fb, fc, fd := StateFrame(a, state), StateFrame(b, state), StateFrame(c, state), StateFrame(d, state);
    assert [a, b, c, d][1..] == [b, c, d];
    assert [b, c, d][1..] == [c, d];
    assert [c, d][1..] == [d];
    assert [d][1..] == [];
    assert StateFrames([d], state) == fd;
    assert StateFrames([b, c, d], state) == fb + (fc + fd);
    assert fa + (fb + (fc + fd)) == fa + fb + fc + fd;
  }

  /** Frames appended for four axes one after the other are the frames for the four together. */
  lemma SentToFour(before: seq<Frame>, after: seq<Frame>, a: Axis, b: Axis, c: Axis, d: Axis, state: int)
    requires 0 <= state < Pow256(4)
    requires after == before + StateFrame(a, state) + StateFrame(b, state) + StateFrame(c, state) + StateFrame(d, state)
    ensures after == before + StateFrames([a, b, c, d], state)
  {
    StateFramesOfFour(a, b, c, d, state);
  }

  /** A malformed heartbeat of one of four axes, spelled out. */
  lemma MalformedForFour(axes: seq<Axis>, msg: Frame)
    requires |axes| == 4
    ensures MalformedFor(axes, msg) <==>
      |msg.data| < 7 && (msg.id == ArbitrationId(axes[0].nodeId, HEARTBEAT_CMD) || msg.id == ArbitrationId(axes[1].nodeId, HEARTBEAT_CMD)
       || msg.id == ArbitrationId(axes[2].nodeId, HEARTBEAT_CMD) || msg.id == ArbitrationId(axes[3].nodeId, HEARTBEAT_CMD))
  {
  }

  /** Four axes all ready, spelled out. */
  lemma AllReadyOfFour(axes: seq<Axis>, stateWaited: int, msgs: seq<Frame>)
    requires |axes| == 4
    ensures AllReady(axes, stateWaited, msgs) <==>
      (!axes[0].enabled || LatchedBy(axes[0].nodeId, stateWaited, msgs))
      && (!axes[1].enabled || LatchedBy(axes[1].nodeId, stateWaited, msgs))
      && (!axes[2].enabled || LatchedBy(axes[2].nodeId, stateWaited, msgs))
      && (!axes[3].enabled || LatchedBy(axes[3].nodeId, stateWaited, msgs))
  {
  }

  /** Every set-state frame goes to an axis that is switched on, and none when all are off. */
  lemma {:induction false} StateFramesOnlyEnabled(axes: seq<Axis>, state: int)
    requires 0 <= state < Pow256(4)
    ensures forall f :: f in StateFrames(axes, state) ==>
      exists k :: 0 <= k < |axes| && axes[k].enabled && f.id == ArbitrationId(axes[k].nodeId, SET_AXIS_STATE_CMD)
    ensures (forall k :: 0 <= k < |axes| ==> !axes[k].enabled) ==> StateFrames(axes, state) == []
    decreases |axes|
  {
    if axes != [] {
      StateFramesOnlyEnabled(axes[1..], state);
      forall f | f in StateFrames(axes, state)
        ensures exists k :: 0 <= k < |axes| && axes[k].enabled && f.id == ArbitrationId(axes[k].nodeId, SET_AXIS_STATE_CMD)
      {
        if f !in StateFrames(axes[1..], state) {
          assert f in StateFrame(axes[0], state);
        } else {
          var k :| 0 <= k < |axes[1..]| && axes[1..][k].enabled && f.id == ArbitrationId(axes[1..][k].nodeId, SET_AXIS_STATE_CMD);
          assert axes[k + 1] == axes[1..][k];
        }
      }
    }
  }

  /**
   * One heartbeat check of waitState: a heartbeat of node sets the latch
   * when it reports stateWaited, and raises when it is too short to unpack.
   */
  method Listen(node: nat, stateWaited: int, msg: Frame, latched: bool) returns (r: Result<bool, Error>)
    ensures r.Failure? <==> msg.id == ArbitrationId(node, HEARTBEAT_CMD) && |msg.data| < 7
    ensures r.Failure? ==> r.error == StructError
    ensures r.Success? ==> (r.value <==> latched || Latches(node, stateWaited, msg))
  {
    r := Success(latched);
    if msg.id == ArbitrationId(node, HEARTBEAT_CMD) {
      var hb := DecodeHeartbeat(msg.data);
      if hb.Failure? {
        return Failure(StructError);
      }
      if hb.value.state == stateWaited {
        r := Success(true);
      }
    }
  }

  /** The set_state_msg call for one axis, made only when its flag is on. */
  method RequestState(node: CanSimpleNode, enabled: bool, state: int)
    requires 0 <= state < Pow256(4)
    modifies node, node.bus
    ensures node.bus.sent == old(node.bus.sent) + StateFrame(Axis(node.nodeId, enabled), state)
    ensures enabled ==> !node.connected
    ensures !enabled ==> node.connected == old(node.connected)
    ensures node.rx == old(node.rx) && node.reports == old(node.reports)
  {
    if enabled {
      var requested := node.SetStateMsg(state);
      assert requested.Success?;
    }
  }

  /** The four axes of the script on one bus: can21 .. can24 and their flags node21 .. node24. */
  class Robot {
    const bus: Bus
    const can21: CanSimpleNode
    const can22: CanSimpleNode
    const can23: CanSimpleNode
    const can24: CanSimpleNode
    const node21: bool
    const node22: bool
    const node23: bool
    const node24: bool

    /** All four nodes share the robot's bus and are distinct objects. */
    predicate Valid()
    {
      can21.bus == bus && can22.bus == bus && can23.bus == bus && can24.bus == bus
      && can21 != can22 && can21 != can23 && can21 != can24
      && can22 != can23 && can22 != can24 && can23 != can24
    }

    /** The latches of the switched-on axes are clear. */
    predicate LatchesCleared()
      reads can21, can22, can23, can24
    {
      (node21 ==> !can21.connected) && (node22 ==> !can22.connected)
      && (node23 ==> !can23.connected) && (node24 ==> !can24.connected)
    }

    /** The axes in the order the script checks them. */
    function Axes(): seq<Axis>
    {
      [Axis(can21.nodeId, node21), Axis(can22.nodeId, node22), Axis(can23.nodeId, node23), Axis(can24.nodeId, node24)]
    }

    /** The nodes 11, 22, 23 and 13 on one bus, every one switched on. */
    constructor(bus: Bus)
      ensures Valid() && this.bus == bus
      ensures Axes() == [Axis(11, true), Axis(22, true), Axis(23, true), Axis(13, true)]
      ensures fresh(can21) && fresh(can22) && fresh(can23) && fresh(can24)
    {
      this.bus := bus;
      can21 := new CanSimpleNode(bus, 11);
      can22 := new CanSimpleNode(bus, 22);
      can23 := new CanSimpleNode(bus, 23);
      can24 := new CanSimpleNode(bus, 13);
      node21, node22, node23, node24 := true, true, true, true;
    }

    /** The right side: can21 and can22 at the given speed. */
    function RunRight(speed: real): seq<Velocity>
    {
      [Velocity(can21.nodeId, speed), Velocity(can22.nodeId, speed)]
    }

    /** The left side: can23 and can24 at the negated speed. */
    function RunLeft(speed: real): seq<Velocity>
    {
      [Velocity(can23.nodeId, -speed), Velocity(can24.nodeId, -speed)]
    }

    /**
     * The same speed for both sides reaches the left nodes with the opposite
     * sign of the right ones, and each side addresses only its own nodes.
     */
    lemma SidesOppose(speed: real)
      ensures |RunRight(speed)| == |RunLeft(speed)| == 2
      ensures forall k :: 0 <= k < 2 ==> RunLeft(speed)[k].speed == -RunRight(speed)[k].speed
      ensures forall k :: 0 <= k < 2 ==> RunRight(speed)[k].node in {Axes()[0].nodeId, Axes()[1].nodeId}
      ensures forall k :: 0 <= k < 2 ==> RunLeft(speed)[k].node in {Axes()[2].nodeId, Axes()[3].nodeId}
    {
    }

    /**
     * The joystick branch of the control loop: the mixer's results are bound
     * as (right, left), so its first result drives the right side.
     */
    function JoystickCommands(x: real, y: real): seq<Velocity>
    {
      var (right, left) := TankDrive(x, y);
      RunRight(right * MAX_SPEED) + RunLeft(left * MAX_SPEED)
    }

    /**
     * As bound at the call site, the right side runs at (y + x) scaled and
     * the left side at minus (y - x) scaled, both clamped first.
     */
    lemma JoystickSwapsSides(x: real, y: real)
      ensures JoystickCommands(x, y) ==
        [Velocity(can21.nodeId, Clamp(y + x) * MAX_SPEED), Velocity(can22.nodeId, Clamp(y + x) * MAX_SPEED),
         Velocity(can23.nodeId, -(Clamp(y - x) * MAX_SPEED)), Velocity(can24.nodeId, -(Clamp(y - x) * MAX_SPEED))]
    {
    }

    /** Sends clear-errors to all four axes, switched on or not. */
    method ClearErr()
      requires Valid()
      modifies bus
      ensures bus.sent == old(bus.sent) + [ClearErrorsFrame(can21.nodeId, false), ClearErrorsFrame(can22.nodeId, false),
                                            ClearErrorsFrame(can23.nodeId, false), ClearErrorsFrame(can24.nodeId, false)]
    {
      can21.ClearErrorsMsg(false);
      can22.ClearErrorsMsg(false);
      can23.ClearErrorsMsg(false);
      can24.ClearErrorsMsg(false);
    }

    /**
     * Scans msgs for heartbeats until every axis that is switched on has
     * reported stateWaited; returns the index of the message it stops at.
     */
    method WaitState(stateWaited: int, msgs: seq<Frame>) returns (r: Result<nat, Error>)
      ensures r == Barrier(Axes(), stateWaited, msgs)
    {
      var axes := Axes();
      ghost var vs := Verdicts(axes, stateWaited, msgs);
      var connected21, connected22, connected23, connected24 := false, false, false, false;
      var i := 0;
      while i < |msgs|
        invariant i <= |msgs|
        invariant connected21 == LatchedBy(can21.nodeId, stateWaited, msgs[..i])
        invariant connected22 == LatchedBy(can22.nodeId, stateWaited, msgs[..i])
        invariant connected23 == LatchedBy(can23.nodeId, stateWaited, msgs[..i])
        invariant connected24 == LatchedBy(can24.nodeId, stateWaited, msgs[..i])
        invariant Barrier(axes, stateWaited, msgs) == FirstStop(vs, i)
      {
        var msg := msgs[i];
        LatchStep(can21.nodeId, stateWaited, msgs, i);
        LatchStep(can22.nodeId, stateWaited, msgs, i);
        LatchStep(can23.nodeId, stateWaited, msgs, i);
        LatchStep(can24.nodeId, stateWaited, msgs, i);
        MalformedForFour(axes, msg);
        AllReadyOfFour(axes, stateWaited, msgs[..i + 1]);
        assert vs[i] == VerdictAt(axes, stateWaited, msgs, i);
        var heard21 := Listen(can21.nodeId, stateWaited, msg, connected21);
        if heard21.Failure? {
          return Failure(StructError);
        }
        connected21 := heard21.value;
        var heard22 := Listen(can22.nodeId, stateWaited, msg, connected22);
        if heard22.Failure? {
          return Failure(StructError);
        }
        connected22 := heard22.value;
        var heard23 := Listen(can23.nodeId, stateWaited, msg, connected23);
        if heard23.Failure? {
          return Failure(StructError);
        }
        connected23 := heard23.value;
        var heard24 := Listen(can24.nodeId, stateWaited, msg, connected24);
        if heard24.Failure? {
          return Failure(StructError);
        }
        connected24 := heard24.value;
        if (connected21 || !node21) && (connected22 || !node22) && (connected23 || !node23) && (connected24 || !node24) {
          return Success(i);
        }
        i := i + 1;
      }
      return Failure(Timeout);
    }

    /** Sends the state request to every axis that is switched on, then waits for them all to reach it. */
    method SetStateAll(state: int, msgs: seq<Frame>) returns (r: Result<nat, Error>)
      requires Valid() && 0 <= state < Pow256(4)
      modifies bus, can21, can22, can23, can24
      ensures bus.sent == old(bus.sent) + StateFrames(Axes(), state)
      ensures r == Barrier(Axes(), state, msgs)
      ensures LatchesCleared()
      ensures (!node21 ==> can21.connected == old(can21.connected)) && (!node22 ==> can22.connected == old(can22.connected))
      ensures (!node23 ==> can23.connected == old(can23.connected)) && (!node24 ==> can24.connected == old(can24.connected))
      ensures can21.rx == old(can21.rx) && can22.rx == old(can22.rx) && can23.rx == old(can23.rx) && can24.rx == old(can24.rx)
      ensures can21.reports == old(can21.reports) && can22.reports == old(can22.reports)
      ensures can23.reports == old(can23.reports) && can24.reports == old(can24.reports)
    {
      var a, b, c, d := Axis(can21.nodeId, node21), Axis(can22.nodeId, node22), Axis(can23.nodeId, node23), Axis(can24.nodeId, node24);
      ghost var fa, fb, fc, fd := StateFrame(a, state), StateFrame(b, state), StateFrame(c, state), StateFrame(d, state);
      ghost var sent0 := bus.sent;
      RequestState(can21, node21, state);
      RequestState(can22, node22, state);
      RequestState(can23, node23, state);
      RequestState(can24, node24, state);
      assert bus.sent == sent0 + fa + fb + fc + fd;
      SentToFour(sent0, bus.sent, a, b, c, d, state);
      r := WaitState(state, msgs);
    }

    /** setOpen: every axis that is switched on to closed-loop control. */
    method SetOpen(msgs: seq<Frame>) returns (r: Result<nat, Error>)
      requires Valid()
      modifies bus, can21, can22, can23, can24
      ensures bus.sent == old(bus.sent) + StateFrames(Axes(), CLOSED_LOOP_CONTROL)
      ensures r == Barrier(Axes(), CLOSED_LOOP_CONTROL, msgs)
      ensures LatchesCleared()
      ensures (!node21 ==> can21.connected == old(can21.connected)) && (!node22 ==> can22.connected == old(can22.connected))
      ensures (!node23 ==> can23.connected == old(can23.connected)) && (!node24 ==> can24.connected == old(can24.connected))
      ensures can21.rx == old(can21.rx) && can22.rx == old(can22.rx) && can23.rx == old(can23.rx) && can24.rx == old(can24.rx)
      ensures can21.reports == old(can21.reports) && can22.reports == old(can22.reports)
      ensures can23.reports == old(can23.reports) && can24.reports == old(can24.reports)
    {
      r := SetStateAll(CLOSED_LOOP_CONTROL, msgs);
    }

    /** setIdle: every axis that is switched on to idle. */
    method SetIdle(msgs: seq<Frame>) returns (r: Result<nat, Error>)
      requires Valid()
      modifies bus, can21, can22, can23, can24
      ensures bus.sent == old(bus.sent) + StateFrames(Axes(), IDLE)
      ensures r == Barrier(Axes(), IDLE, msgs)
      ensures LatchesCleared()
      ensures (!node21 ==> can21.connected == old(can21.connected)) && (!node22 ==> can22.connected == old(can22.connected))
      ensures (!node23 ==> can23.connected == old(can23.connected)) && (!node24 ==> can24.connected == old(can24.connected))
      ensures can21.rx == old(can21.rx) && can22.rx == old(can22.rx) && can23.rx == old(can23.rx) && can24.rx == old(can24.rx)
      ensures can21.reports == old(can21.reports) && can22.reports == old(can22.reports)
      ensures can23.reports == old(can23.reports) && can24.reports == old(can24.reports)
    {
      r := SetStateAll(IDLE, msgs);
    }
  }
}
