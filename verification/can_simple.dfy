/**
 * One ODrive axis addressed over CANSimple: the 11-bit frame identifiers,
 * the byte-exact command payloads, the heartbeat layout, the receive buffer
 * a node reads from, and the `connected` latch that a set-state command
 * clears and the first heartbeat in the awaited state sets.
 */
module CanSimple {
  import opened Wrappers
  import opened Bytes
  import ErrorCodes

  const HEARTBEAT_CMD: nat := 0x01
  const ADDRESS_CMD: nat := 0x06
  const SET_AXIS_STATE_CMD: nat := 0x07
  const REBOOT_CMD: nat := 0x16
  const CLEAR_ERRORS_CMD: nat := 0x18

  const REBOOT_ACTION_REBOOT: byte := 0
  const REBOOT_ACTION_SAVE: byte := 1
  const REBOOT_ACTION_ERASE: byte := 2

  /** A CAN frame: its arbitration id, its payload, and whether the id is a 29-bit one. */
  datatype Frame = Frame(id: nat, data: seq<byte>, extended: bool)

  /** The ways an exchange with a node can fail. */
  datatype Error =
    | Timeout               // no awaited frame arrived
    | StructError           // a value does not fit its layout, or a payload is too short
    | KeyError(key: string) // a lookup in a dictionary failed
    | FileNotFound(path: string)
    | WriteFailed(path: string)
    | OutsideModel          // an int packed as binary32 whose rounding this model leaves out
    | OverflowError         // an int too large for a double was converted to float

  // ---- Identifiers

  /** The identifier of command cmd for node: the node id above five command bits. */
  function ArbitrationId(node: nat, cmd: nat): (id: nat)
    requires cmd < 32
    ensures id / 32 == node && id % 32 == cmd
  {
    node * 32 + cmd
  }

  /** An identifier names exactly one node and one command. */
  lemma ArbitrationIdInjective(node: nat, cmd: nat, node': nat, cmd': nat)
    requires cmd < 32 && cmd' < 32
    ensures ArbitrationId(node, cmd) == ArbitrationId(node', cmd') <==> node == node' && cmd == cmd'
  {
  }

  /** Node ids below 64 give identifiers that fit the 11 bits of a base-format frame. */
  lemma BaseFormatId(node: nat, cmd: nat)
    requires node < 64 && cmd < 32
    ensures ArbitrationId(node, cmd) < 0x800
  {
  }

  // ---- Command payloads

  /** Clear-errors: one byte, 1 when the node is asked to identify itself, else 0. */
  function ClearErrorsFrame(node: nat, identify: bool): (f: Frame)
    ensures f.id == ArbitrationId(node, CLEAR_ERRORS_CMD) && !f.extended
    ensures |f.data| == 1 && (f.data[0] == 1 <==> identify) && (f.data[0] == 0 <==> !identify)
  {
    Frame(ArbitrationId(node, CLEAR_ERRORS_CMD), if identify then [1] else [0], false)
  }

  /** Reboot: one byte holding the action (reboot, save, erase). */
  function RebootFrame(node: nat, action: byte): (f: Frame)
    ensures f.id == ArbitrationId(node, REBOOT_CMD) && !f.extended
    ensures f.data == [action]
  {
    Frame(ArbitrationId(node, REBOOT_CMD), [action], false)
  }

  /** The '<I' layout of an axis state; a state outside 0 .. 2^32-1 does not fit. */
  function StatePayload(state: int): (r: Result<seq<byte>, Error>)
    ensures r.Success? <==> 0 <= state < Pow256(4)
    ensures r.Success? ==> |r.value| == 4
  {
    if 0 <= state < Pow256(4) then Success(LittleEndian(state, 4)) else Failure(StructError)
  }

  /** The four bytes of a set-state payload read back as the state that was sent. */
  lemma StatePayloadRoundTrip(state: int)
    requires 0 <= state < Pow256(4)
    ensures StatePayload(state).Success? && FromLittleEndian(StatePayload(state).value) == state
  {
    DecodeEncode(state, 4);
  }

  // ---- Heartbeat

  /** The fields of a heartbeat: the axis error word, the axis state, procedure result, trajectory done. */
  datatype Heartbeat = Heartbeat(error: nat, state: byte, result: byte, trajDone: byte)

  /** The '<IBBB' layout a node sends; the error word must fit 32 bits. */
  function EncodeHeartbeat(h: Heartbeat): (bs: seq<byte>)
    requires h.error < Pow256(4)
    ensures |bs| == 7
  {
    LittleEndian(h.error, 4) + [h.state, h.result, h.trajDone]
  }

  /** Reads a heartbeat from the first seven payload bytes; a shorter payload is a struct error. */
  function DecodeHeartbeat(data: seq<byte>): (r: Result<Heartbeat, Error>)
    ensures r.Success? <==> |data| >= 7
    ensures r.Success? ==> r.value.error < Pow256(4)
  {
    if |data| < 7 then Failure(StructError)
    else Success(Heartbeat(FromLittleEndian(data[..4]), data[4], data[5], data[6]))
  }

  /** A sent heartbeat, followed by any padding, decodes to itself. */
  lemma HeartbeatRoundTrip(h: Heartbeat, padding: seq<byte>)
    requires h.error < Pow256(4)
    ensures DecodeHeartbeat(EncodeHeartbeat(h) + padding) == Success(h)
  {
    var bs := EncodeHeartbeat(h) + padding;
    assert bs[..4] == LittleEndian(h.error, 4);
    DecodeEncode(h.error, 4);
  }

  /** Decoding looks at the first seven bytes only, and loses none of them. */
  lemma HeartbeatPrefixRoundTrip(data: seq<byte>)
    requires |data| >= 7
    ensures DecodeHeartbeat(data).Success?
    ensures EncodeHeartbeat(DecodeHeartbeat(data).value) == data[..7]
  {
    EncodeDecode(data[..4]);
    assert data[..7] == data[..4] + [data[4], data[5], data[6]];
  }

  // ---- The connected latch, as a function of the state and one message

  /** What wait_state makes of one message. */
  datatype Observation =
    | AlreadyConnected  // the latch was set: the message is not looked at
    | Ignored           // another node, another command, or another state
    | Malformed         // a heartbeat of this node too short to decode
    | Reached(error: nat)  // this node's heartbeat in the awaited state, with its error word

  function Observe(connected: bool, node: nat, stateWaited: int, msg: Frame): (o: Observation)
    ensures o.AlreadyConnected? <==> connected
    ensures o.Malformed? <==> !connected && msg.id == ArbitrationId(node, HEARTBEAT_CMD) && |msg.data| < 7
    ensures o.Reached? ==> msg.id == ArbitrationId(node, HEARTBEAT_CMD) && DecodeHeartbeat(msg.data).Success?
    ensures o.Reached? ==> DecodeHeartbeat(msg.data).value.state == stateWaited && o.error == DecodeHeartbeat(msg.data).value.error
  {
    if connected then AlreadyConnected
    else if msg.id != ArbitrationId(node, HEARTBEAT_CMD) then Ignored
    else match DecodeHeartbeat(msg.data)
      case Failure(_) => Malformed
      case Success(h) => if h.state == stateWaited then Reached(h.error) else Ignored
  }

  /** A heartbeat of this node reaches the latch exactly when it reports the awaited state, and carries its error word. */
  lemma HeartbeatReaches(node: nat, stateWaited: int, h: Heartbeat, padding: seq<byte>, extended: bool)
    requires h.error < Pow256(4)
    ensures var o := Observe(false, node, stateWaited,
                             Frame(ArbitrationId(node, HEARTBEAT_CMD), EncodeHeartbeat(h) + padding, extended));
      (o.Reached? <==> h.state == stateWaited) && (o.Reached? ==> o.error == h.error) && (!o.Reached? ==> o == Ignored)
  {
    HeartbeatRoundTrip(h, padding);
  }

  /** A frame with another node's id, or another command's, never reaches the latch. */
  lemma OtherFramesIgnored(connected: bool, node: nat, stateWaited: int, other: nat, cmd: nat, data: seq<byte>, extended: bool)
    requires cmd < 32 && (other != node || cmd != HEARTBEAT_CMD)
    ensures !Observe(connected, node, stateWaited, Frame(ArbitrationId(other, cmd), data, extended)).Reached?
    ensures !connected ==> Observe(connected, node, stateWaited, Frame(ArbitrationId(other, cmd), data, extended)) == Ignored
  {
    ArbitrationIdInjective(other, cmd, node, HEARTBEAT_CMD);
  }

  /**
   * The error words reported while a latch that starts in state connected
   * sees msgs one at a time, stopping at a malformed heartbeat (which raises).
   */
  function Reported(connected: bool, node: nat, stateWaited: int, msgs: seq<Frame>): seq<nat>
    decreases |msgs|
  {
    if msgs == [] then []
    else match Observe(connected, node, stateWaited, msgs[0])
      case AlreadyConnected => Reported(true, node, stateWaited, msgs[1..])
      case Ignored => Reported(connected, node, stateWaited, msgs[1..])
      case Malformed => []
      case Reached(e) => (if e != 0 then [e] else []) + Reported(true, node, stateWaited, msgs[1..])
  }

  /** Once connected, nothing more is reported; from any start, at most one error is reported. */
  lemma {:induction false} AtMostOneReport(connected: bool, node: nat, stateWaited: int, msgs: seq<Frame>)
    ensures connected ==> Reported(connected, node, stateWaited, msgs) == []
    ensures |Reported(connected, node, stateWaited, msgs)| <= 1
    decreases |msgs|
  {
    if msgs != [] {
      AtMostOneReport(true, node, stateWaited, msgs[1..]);
      AtMostOneReport(connected, node, stateWaited, msgs[1..]);
    }
  }

  // ---- The first frame with a given id

  /** The index of the first frame with the given id, if there is one. */
  function FirstMatch(frames: seq<Frame>, id: nat): (r: Option<nat>)
    ensures r.Some? ==> r.value < |frames| && frames[r.value].id == id
    ensures r.Some? ==> forall k :: 0 <= k < r.value ==> frames[k].id != id
    ensures r.None? ==> forall k :: 0 <= k < |frames| ==> frames[k].id != id
    decreases |frames|
  {
    if frames == [] then None
    else if frames[0].id == id then Some(0)
    else match FirstMatch(frames[1..], id)
      case None => None
      case Some(k) => Some(k + 1)
  }

  /** The frames the node has sent go to one shared bus. */
  class Bus {
    var sent: seq<Frame>

    constructor()
      ensures sent == []
    {
      sent := [];
    }

    method Send(f: Frame)
      modifies this
      ensures sent == old(sent) + [f]
    {
      sent := sent + [f];
    }
  }

  /** A line getErrorDescription prints: the node, the error word and its description. */
  datatype ErrorReport = ErrorReport(node: nat, code: bv32, description: string)

  class CanSimpleNode {
    const bus: Bus
    const nodeId: nat
    /** The frames the reader has buffered and not yet handed out, oldest first. */
    var rx: seq<Frame>
    var connected: bool
    /** The error lines printed so far. */
    var reports: seq<ErrorReport>

    constructor(bus: Bus, nodeId: nat)
      ensures this.bus == bus && this.nodeId == nodeId
      ensures rx == [] && !connected && reports == []
    {
      this.bus := bus;
      this.nodeId := nodeId;
      rx := [];
      connected := false;
      reports := [];
    }

    /** Frames arriving from the bus are appended to the reader's buffer. */
    method Receive(frames: seq<Frame>)
      modifies this
      ensures rx == old(rx) + frames
      ensures connected == old(connected) && reports == old(reports)
    {
      rx := rx + frames;
    }

    /** Drops every buffered frame, one at a time. */
    method FlushRx()
      modifies this
      ensures rx == []
      ensures connected == old(connected) && reports == old(reports)
    {
      while rx != []
        invariant connected == old(connected) && reports == old(reports)
        decreases |rx|
      {
        rx := rx[1..];
      }
    }

    /**
     * Consumes buffered frames in order until one carries command cmd of this
     * node, and returns it; the frames before it are discarded. When none
     * does, the buffer is used up and the wait times out.
     */
    method AwaitMsg(cmd: nat) returns (r: Result<Frame, Error>)
      requires cmd < 32
      modifies this
      ensures match FirstMatch(old(rx), ArbitrationId(nodeId, cmd))
        case Some(k) => r == Success(old(rx)[k]) && rx == old(rx)[k + 1..]
        case None => r == Failure(Timeout) && rx == []
      ensures connected == old(connected) && reports == old(reports)
    {
      var id := ArbitrationId(nodeId, cmd);
      ghost var consumed := 0;
      while rx != []
        invariant 0 <= consumed <= |old(rx)| && rx == old(rx)[consumed..]
        invariant forall k :: 0 <= k < consumed ==> old(rx)[k].id != id
        invariant connected == old(connected) && reports == old(reports)
        decreases |rx|
      {
        var msg := rx[0];
        rx := rx[1..];
        if msg.id == id {
          return Success(msg);
        }
        consumed := consumed + 1;
      }
      return Failure(Timeout);
    }

    method ClearErrorsMsg(identify: bool)
      modifies bus
      ensures bus.sent == old(bus.sent) + [ClearErrorsFrame(nodeId, identify)]
    {
      bus.Send(ClearErrorsFrame(nodeId, identify));
    }

    method RebootMsg(action: byte)
      modifies bus
      ensures bus.sent == old(bus.sent) + [RebootFrame(nodeId, action)]
    {
      bus.Send(RebootFrame(nodeId, action));
    }

    /** Records the description of an error word, then asks the node to clear its errors. */
    method GetErrorDescription(code: bv32)
      modifies this, bus
      ensures reports == old(reports) + [ErrorReport(nodeId, code, ErrorCodes.Describe(code))]
      ensures bus.sent == old(bus.sent) + [ClearErrorsFrame(nodeId, false)]
      ensures rx == old(rx) && connected == old(connected)
    {
      var description := ErrorCodes.GetErrorDescription(code);
      reports := reports + [ErrorReport(nodeId, code, description)];
      ClearErrorsMsg(false);
    }

    /** Requests an axis state and clears the latch; a state that does not fit '<I' raises before anything is sent. */
    method SetStateMsg(state: int) returns (r: Result<(), Error>)
      modifies this, bus
      ensures r.Success? <==> StatePayload(state).Success?
      ensures r.Success? ==> bus.sent == old(bus.sent) + [Frame(ArbitrationId(nodeId, SET_AXIS_STATE_CMD), StatePayload(state).value, false)]
      ensures r.Success? ==> !connected
      ensures r.Failure? ==> r.error == StructError && bus.sent == old(bus.sent) && connected == old(connected)
      ensures rx == old(rx) && reports == old(reports)
    {
      var payload := StatePayload(state);
      if payload.Failure? {
        return Failure(StructError);
      }
      bus.Send(Frame(ArbitrationId(nodeId, SET_AXIS_STATE_CMD), payload.value, false));
      connected := false;
      return Success(());
    }

    /**
     * Looks at one message while waiting for stateWaited: true once the latch
     * is set. The first heartbeat of this node in that state sets it, and
     * reports and clears a non-zero error word on the way.
     */
    method WaitState(stateWaited: int, msg: Frame) returns (r: Result<bool, Error>)
      modifies this, bus
      ensures match Observe(old(connected), nodeId, stateWaited, msg)
        case AlreadyConnected =>
          r == Success(true) && connected && reports == old(reports) && bus.sent == old(bus.sent)
        case Ignored =>
          r == Success(false) && !connected && reports == old(reports) && bus.sent == old(bus.sent)
        case Malformed =>
          r == Failure(StructError) && !connected && reports == old(reports) && bus.sent == old(bus.sent)
        case Reached(e) =>
          r == Success(true) && connected && e < Pow256(4)
          && reports == old(reports) + (if e != 0 then [ErrorReport(nodeId, e as bv32, ErrorCodes.Describe(e as bv32))] else [])
          && bus.sent == old(bus.sent) + (if e != 0 then [ClearErrorsFrame(nodeId, false)] else [])
      ensures rx == old(rx)
    {
      if connected {
        return Success(true);
      }
      if msg.id == ArbitrationId(nodeId, HEARTBEAT_CMD) {
        var hb := DecodeHeartbeat(msg.data);
        if hb.Failure? {
          return Failure(StructError);
        }
        if hb.value.state == stateWaited {
          if hb.value.error != 0 {
            GetErrorDescription(hb.value.error as bv32);
          }
          connected := true;
          return Success(true);
        }
      }
      return Success(false);
    }
  }
}
