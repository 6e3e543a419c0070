# CANSimple client for ODrive motor controllers, in Dafny

This project models the sequential core of a small Python client that talks to
ODrive motor controllers over a CAN bus with the CANSimple protocol, and
proves what that client promises. The core has four parts:

- **Error-word decoder** (`error_codes.dfy`, module `ErrorCodes`). This is the
  fixed table of single-bit axis error codes and `get_error_description`. The
  decoder turns a 32-bit heartbeat error word into one line per named bit, in
  table order, joined by newlines. When no named bit is set it returns
  "No error.".
- **Per-node frame builder and heartbeat latch** (`can_simple.dfy`, module
  `CanSimple`). This covers:
  - frame identifiers `node_id << 5 | cmd`;
  - the clear-errors, reboot and set-state payloads;
  - the heartbeat layout `<IBBB`;
  - the `CanSimpleNode` class with its receive buffer, `flush_rx`,
    `await_msg` and the `connected` latch that `set_state_msg` clears and
    `wait_state` sets.
- **Endpoint (SDO) sub-protocol and the configuration flow**
  (`configure.dfy`, module `Configure`). This covers:
  - type tags and their struct formats;
  - the `<BHB` request layouts and reply decoding at offset 4;
  - version strings from the Get_Version reply and the two-step version
    check;
  - the write-then-read verification rule;
  - `restore_config`, the control flow of `configure`, including the
    calibration wait;
  - the dictionary-override merge of configuration layers in `main`.
- **The drive script** (`run.dfy`, module `Run`). This covers:
  - the tank-drive mixer over `real`;
  - the side and sign convention of `runRight`/`runLeft` and the joystick
    call site;
  - `clearErr`;
  - the four-latch barrier `waitState`;
  - the flag-gated `setOpen`/`setIdle`.

Supporting modules:

- `bytes.dfy` (`Bytes`) holds little-endian layouts, two's complement and
  Python's decimal `str()` of a non-negative int.
- `float32.dfy` (`Float32`) holds binary32 bit patterns with the value
  Python's `==` and `math.isnan` see.
- `wrappers.dfy` holds `Option` and `Result`.

The CAN bus is modelled as follows:

- **Sends** are an output log: `Bus.sent`, a sequence of frames.
- **Inbound frames** are finite sequences given as parameters. The frames
  that arrive while a node waits are appended to its receive buffer.
- **A timeout** is "no matching frame in the sequence".
- **Python exceptions** are the `Failure` cases of `Result`:
  - `struct.error` is `StructError`;
  - a missing key is `KeyError`;
  - a missing endpoint file is `FileNotFound`;
  - the write-verification exception is `WriteFailed`;
  - the OverflowError of `math.isnan` on an int too large for a double is
    `OverflowError`.

Behaviour of the code that a reader might not expect, and that the model keeps:

- **Verification rule.** configure.py:100-104 raises only when exactly one
  side is NaN, so two different non-NaN values pass.
  `Configure.VerifyFailsIffNaNDiffers` and `Configure.NonNaNAlwaysPasses`
  state the rule.
- **Overflow in the NaN test.** When the two sides differ, `math.isnan` is
  applied to both, and it raises OverflowError on an int of magnitude
  2^1024 - 2^970 or more. Only a bool endpoint lets such an int through: '?'
  packs it as 1, and the bool read back never equals it.
  `Configure.HugeIntIntoBoolOverflows` and `Configure.OverflowNeedsBool`
  state this.
- **Version mismatch.** A version mismatch makes `version_check` return False
  (configure.py:68-73); it does not raise. `configure` then skips the restore
  and the save, but still calibrates when asked (configure.py:118-131).
  `Configure.ConfigureNode`, `Configure.NoRestoreWithoutVersion` and
  `Configure.CalibratesIff` state this.
- **Barrier timeout.** The barrier in run.py has no timeout and decodes the
  heartbeats of switched-off nodes as well. A short heartbeat from any of the
  four nodes therefore raises.

## Model

| member | source | states |
|---|---|---|
| ErrorCodes.GetErrorDescription | odrive_error_codes.py:28-37 | the loop's result is the description of the word: the texts of the table entries whose code shares a bit with it, in table order, joined by newlines, or "No error." |
| ErrorCodes.PickedSpec | odrive_error_codes.py:33-36 | an entry is selected exactly when its code shares a bit with the word; selected entries come once each, in table order |
| ErrorCodes.TableWellFormed | odrive_error_codes.py:3-26 | every key of the table is a single bit, and the keys strictly ascend |
| ErrorCodes.NothingPickedIff | odrive_error_codes.py:33-37 | nothing is selected exactly when the word shares no bit with the OR of the table's codes |
| ErrorCodes.Describe | odrive_error_codes.py:33-37 | the decoder's result: the selected lines joined, or "No error." when none is selected; its properties are the lemmas below |
| ErrorCodes.JoinLines | odrive_error_codes.py:37 | Python's "\n".join: the lines with a newline between neighbours |
| ErrorCodes.TextLonger | odrive_error_codes.py:3-26 | every description in the table is longer than "No error." |
| ErrorCodes.JoinLinesLonger | odrive_error_codes.py:37 | joining one or more lines each longer than "No error." gives a text longer than it |
| ErrorCodes.DescribeNoErrorIff | odrive_error_codes.py:37 | the line list is empty exactly when the word sets no bit the table names; the result is "No error." exactly then, in both directions, and otherwise the selected lines joined |
| ErrorCodes.NothingNamed | odrive_error_codes.py:33-37 | a word that shares no bit with any table code is described as "No error." |
| ErrorCodes.NoErrorWords | odrive_error_codes.py:33-37 | the words 0, 128 and 2^31, whose bits the table does not name, are described as "No error." |
| ErrorCodes.PickedUnderMask | odrive_error_codes.py:34-35 | clearing bits that no entry names does not change the selection |
| ErrorCodes.UnnamedBitsIgnored | odrive_error_codes.py:34-35 | the description of e equals the description of e & KNOWN_MASK |
| ErrorCodes.PickedCountsBits | odrive_error_codes.py:34-36 | for any table of distinct single bits, the number of selected entries is the popcount of the word under the table's mask |
| ErrorCodes.LineCountIsPopCount | odrive_error_codes.py:34-36 | the number of lines is popcount(e & KNOWN_MASK) |
| ErrorCodes.LinesFollowCodeOrder | odrive_error_codes.py:34-36 | each line names a bit set in the word, and lines follow ascending code order |
| Bytes.DecodeEncode | configure.py:83 | a value below 256^w written little-endian in w bytes reads back as itself |
| Bytes.EncodeDecode | configure.py:98 | any w bytes read as a number and written again give the same bytes |
| Bytes.LittleEndianInjective | configure.py:83 | two layouts of equal width are equal exactly when their values are |
| Bytes.SignedRoundTrip | configure.py:98 | a signed value stored in two's complement reads back as itself |
| Bytes.PatternRoundTrip | configure.py:98 | an unsigned pattern read as signed and stored again is the same pattern |
| Bytes.ParseDecimalOfDecimal | configure.py:61-62 | the decimal text of a number parses back to the number |
| Bytes.DecimalInjective | configure.py:61-62 | different numbers have different decimal texts |
| Float32.EqualityOfSpecialValues | configure.py:100-103 | a NaN pattern never equals itself, every other pattern does, and +0 equals -0 |
| Float32.FromInt | configure.py:83 | converting an int to binary32 is modelled exactly when its magnitude is below 2^24 |
| Float32.FromIntExact | configure.py:99 | such an int converts to a float of exactly the same value |
| CanSimple.ArbitrationId | can_simple_utils.py:39 | for cmd < 32, the identifier divided by 32 is the node id and its low five bits are the command |
| CanSimple.ArbitrationIdInjective | can_simple_utils.py:36-40 | an identifier names one node and one command, so matching selects only that node's frames of that command |
| CanSimple.BaseFormatId | can_simple_utils.py:44-47 | node ids below 64 give identifiers below 0x800, fitting an 11-bit base-format frame |
| CanSimple.ClearErrorsFrame | can_simple_utils.py:43-48 | command 0x18 for the node, one byte: 1 when identify, else 0, base format |
| CanSimple.RebootFrame | can_simple_utils.py:50-55 | command 0x16 for the node, the single byte action |
| CanSimple.StatePayload | can_simple_utils.py:65 | '<I' packs exactly the states 0 .. 2^32-1, into four bytes; anything else is a struct error |
| CanSimple.StatePayloadRoundTrip | can_simple_utils.py:65 | the four payload bytes read little-endian give the state back |
| CanSimple.DecodeHeartbeat | can_simple_utils.py:74 | decoding succeeds exactly when the payload has at least seven bytes |
| CanSimple.HeartbeatRoundTrip | can_simple_utils.py:74 | a heartbeat laid out as '<IBBB', followed by any padding, decodes to itself |
| CanSimple.HeartbeatPrefixRoundTrip | can_simple_utils.py:74 | any payload of seven bytes or more decodes, and laying the result out again gives back its first seven bytes |
| CanSimple.Observe | can_simple_utils.py:71-80 | what wait_state makes of one message: already connected exactly when the latch is set; malformed exactly when the latch is clear and the message is this node's heartbeat with fewer than seven bytes; reached only on this node's decodable heartbeat in the awaited state, carrying its error word |
| CanSimple.HeartbeatReaches | can_simple_utils.py:73-79 | this node's heartbeat reaches the latch exactly when its state byte is the awaited state, carrying its error word |
| CanSimple.OtherFramesIgnored | can_simple_utils.py:73-80 | a frame of another node or another command never reaches the latch |
| CanSimple.AtMostOneReport | can_simple_utils.py:70-79 | once connected nothing is reported; over any run of messages at most one error word is reported |
| CanSimple.FirstMatch | can_simple_utils.py:36-41 | the index found holds a frame with the id, and no earlier frame has it; None when no frame has it |
| CanSimple.CanSimpleNode.constructor | can_simple_utils.py:18-22 | a node on the given bus with the given id, an empty buffer and the latch clear |
| CanSimple.CanSimpleNode.Receive | can_simple_utils.py:21 | arriving frames are appended to the reader's buffer; the latch is unchanged |
| CanSimple.CanSimpleNode.FlushRx | can_simple_utils.py:32-34 | the buffer is empty afterwards; nothing else changes |
| CanSimple.CanSimpleNode.AwaitMsg | can_simple_utils.py:36-41 | returns the first buffered frame with the node's id for cmd and drops it and every frame before it; with none, the buffer is used up and the wait times out |
| CanSimple.CanSimpleNode.ClearErrorsMsg | can_simple_utils.py:43-48 | appends exactly the clear-errors frame to the bus log |
| CanSimple.CanSimpleNode.RebootMsg | can_simple_utils.py:50-55 | appends exactly the reboot frame with the action to the bus log |
| CanSimple.CanSimpleNode.GetErrorDescription | can_simple_utils.py:57-60 | records the decoder's description of the code, then sends clear-errors without identify |
| CanSimple.CanSimpleNode.SetStateMsg | can_simple_utils.py:62-68 | sends command 0x07 with the four little-endian state bytes and clears the latch; a state that does not fit raises before anything is sent |
| CanSimple.CanSimpleNode.WaitState | can_simple_utils.py:70-80 | once connected, True with no effect; this node's heartbeat in the awaited state sets the latch, reports and clears a non-zero error word, and returns True; a short heartbeat raises; any other frame gives False and changes nothing |
| Configure.FormatOf | configure.py:28-35 | every known type tag maps to a format of width 1, 2, 4 or 8 |
| Configure.Pack | configure.py:83 | a packed value takes the width of its format; '?' always packs; an unsigned format packs exactly the non-float values in 0 .. 256^w - 1 and a signed one exactly those in two's complement range, refusing everything else with a struct error; 'f' packs every float and every int below 2^24 in magnitude |
| Configure.Unpack | configure.py:98 | '?' reads back a bool and 'f' a float, and no other format reads back either |
| Configure.IntegerRoundTrip | configure.py:83-98 | an integer in the range of an integer format packs, and reads back unchanged |
| Configure.FloatRoundTrip | configure.py:99 | a binary32 pattern packs and unpacks to itself with 'f' |
| Configure.BoolRoundTrip | configure.py:83 | '?' stores the truthiness of any value |
| Configure.Pruned | configure.py:99 | the expected read-back is a float for a float endpoint and the value itself otherwise |
| Configure.PrunedKeepsNumber | configure.py:99 | for a float endpoint the expected read-back equals the written number, or both are NaN |
| Configure.Compare | configure.py:100-104 | the comparison after a write: equal values always pass; otherwise it passes, raises OverflowError, or raises the write failure, and nothing else |
| Configure.VerifyFailsIffNaNDiffers | configure.py:100-104 | the write failure is raised exactly when one side is NaN and the other is not, and neither side is an int beyond the double range |
| Configure.NonNaNAlwaysPasses | configure.py:100-104 | two values neither of which is NaN never raise the write failure, however different, and pass unless one is an int beyond the double range |
| Configure.Judge | configure.py:98-104 | a reply shorter than 4 + width raises a struct error; otherwise the write failure is raised exactly when one of the value read back and the expected value is NaN and the other is not and neither overflows a double; OverflowError only for an int beyond the double range written to a bool endpoint; no other outcome |
| Configure.OverflowNeedsBool | configure.py:98-103 | when either side of the comparison is an int beyond the double range, the endpoint is a bool one and the written value is that int |
| Configure.HugeIntIntoBoolOverflows | configure.py:83-103 | an int beyond the double range written to a bool endpoint raises OverflowError on any reply long enough to decode |
| Configure.SdoHeader | configure.py:83 | four bytes: the opcode, the endpoint id little-endian in two bytes, then 0 |
| Configure.WriteRequest | configure.py:81-85 | succeeds exactly when the id fits 16 bits and the value packs; then it is 4 + width bytes long |
| Configure.ReadRequest | configure.py:89-93 | the '<BHB' header with the read opcode and nothing after it |
| Configure.DecodeReply | configure.py:98 | succeeds exactly when the reply holds at least 4 + width bytes |
| Configure.ReplyValueAtOffsetFour | configure.py:98 | the value is read from the bytes at offset 4, whatever the four header bytes and any trailing bytes are |
| Configure.DecodeEchoedWrite | configure.py:81-98 | a reply equal to the write request decodes to what the packed value reads back as, and for an integer written to an integer endpoint, to the integer itself |
| Configure.RequestsShareHeader | configure.py:89-93 | write and read requests share the id bytes and differ in the opcode byte (1 against 0); the write carries the packed value after the header |
| Configure.EchoVerifies | configure.py:98-104 | a reply that echoes the write request passes verification, unless a NaN or an int beyond the double range was written to a bool endpoint |
| Configure.IntegerWritesNeverMismatch | configure.py:100-104 | a non-NaN write to a non-float endpoint never fails verification, whatever comes back |
| Configure.NaNIntoBoolFails | configure.py:100-104 | a NaN written to a bool endpoint fails verification on any reply long enough to decode |
| Configure.DecodeVersions | configure.py:60-62 | the Get_Version reply decodes exactly when it has eight bytes |
| Configure.VersionsIgnoreOuterBytes | configure.py:60 | bytes 0 and 7 of the reply do not affect the decoded versions |
| Configure.VersionTextInjective | configure.py:61-62 | a version string "a.b.c" names exactly one triple of bytes |
| Configure.EndpointPath | configure.py:64 | the endpoint file of a firmware version is the endpoint directory, the version string and ".json" |
| Configure.CheckVersion | configure.py:60-74 | decodes the reply, loads the file named after the firmware (FileNotFound when missing), and matches when both recorded versions agree |
| Configure.CheckVersionPasses | configure.py:64-74 | the check passes exactly when the file named after the firmware exists and records both the firmware and the hardware string of the reply |
| Configure.PlanWrite | configure.py:77-85 | a planned write has a known format, a 16-bit endpoint id, and a value that packs |
| Configure.UnknownPathFails | configure.py:77 | an unknown path is a KeyError naming it |
| Configure.WriteFrames | configure.py:76-93 | the frames of one write_and_verify: none when a lookup or the packing fails, else the write request then the read request |
| Configure.WriteOutcome | configure.py:76-104 | the outcome of one write_and_verify: the lookup or packing error, a timeout with no reply, else the verdict on the first reply |
| Configure.Run | configure.py:109-111 | the writes performed in order until the first failure; its properties are RunStopsAtFailure and RunOutcome |
| Configure.Attempts | configure.py:109-111 | one write per configuration entry, in the entries' order |
| Configure.RunStopsAtFailure | configure.py:109-111 | once a write has failed, the writes after it change nothing |
| Configure.RunOutcome | configure.py:109-111 | the run succeeds exactly when every write does; otherwise every earlier write succeeded and the run fails as the failing write did |
| Configure.EndpointAccess.constructor | configure.py:42-45 | the endpoint data starts empty |
| Configure.VersionRequest | configure.py:51-55 | the Get_Version request: command 0x00 for the node, no data, base format |
| Configure.VersionReply | configure.py:58-74 | a timeout when no reply comes, else the verdict on the first reply |
| Configure.EndpointAccess.VersionCheck | configure.py:47-74 | sends the Get_Version request, takes the first matching reply, loads the file and answers True exactly when firmware and then hardware strings match |
| Configure.EndpointAccess.WriteAndVerify | configure.py:76-104 | sends the write request then the read request, returns the verdict on the first reply, and sends nothing when a lookup or the packing fails |
| Configure.RestoreConfig | configure.py:107-111 | the outcome, the number of successful writes and the frames sent are those of the in-order run that stops at the first failure |
| Configure.AwaitState | configure.py:128-130 | the index of the message at which wait_state first answers True, within the messages; a malformed heartbeat first raises, and running out is a timeout |
| Configure.AwaitStateFirstReached | configure.py:128-130 | after the latch is cleared, the wait ends at the first heartbeat of the node in the awaited state, and every earlier message is ignored |
| Configure.AwaitStateWhenConnected | configure.py:128-130 | once connected, the wait ends at the first message |
| Configure.AwaitFramesSpec | can_simple_utils.py:75-78 | a wait sends at most one frame, a clear-errors without identify, and sends it exactly when the heartbeat that ends the wait carries a non-zero error word |
| Configure.WaitForState | configure.py:128-130 | feeds messages to wait_state until it answers True; the stopping point is the one AwaitState gives, the node is then connected, and the frames sent are those AwaitFrames gives |
| Configure.CalibrationFramesShape | configure.py:124-131 | calibration sends its request first; when the node comes back to idle the last frame is save-and-reboot, when the wait fails the request is all; at most three frames, the middle one a clear-errors |
| Configure.Calibrate | configure.py:124-131 | the outcome is the wait for idle after the latch is cleared, and the frames sent are exactly the calibration frames |
| Configure.RestoreSendsOnlySdo | configure.py:107-111 | every frame a restore sends is an RxSdo frame of the node |
| Configure.NoRestoreWithoutVersion | configure.py:118-131 | without matching versions only the Get_Version request and, when calibration was asked and the check did not raise, the calibration frames are sent; no RxSdo frame is ever sent |
| Configure.SaveFollowsRestore | configure.py:118-123 | with matching versions the restore's frames follow the Get_Version request directly, and the next frame is save-and-reboot exactly when saving was asked and every write passed |
| Configure.CalibratesIff | configure.py:118-126 | calibration is requested exactly when it was asked for and the version check and restore did not raise |
| Configure.ConfigureFailsIff | configure.py:113-131 | configure fails exactly when the version check raises, when the versions match and a write fails, or when calibration was asked and the wait for idle fails |
| Configure.Setup | configure.py:117-123 | the part before calibration: returns the version verdict and the setup outcome, and sends the Get_Version request followed by the setup frames |
| Configure.ConfigureNode | configure.py:113-131 | the version verdict is the Get_Version verdict, the outcome is ConfigureOutcome, and the frames sent are exactly ConfigureFrames, whose order and failure cases the lemmas above state |
| Configure.Put | configure.py:148 | d[key] = v on an insertion-ordered dict; its properties are GetPut, KeysPut and PutKeepsDistinct |
| Configure.Update | configure.py:148-152 | dict.update: the entries put in order; its properties are GetUpdate, UpdateKeepsOrder and UpdateKeepsDistinct |
| Configure.UpdateAll | configure.py:146-148 | the common files merged in order into an empty dict |
| Configure.GetPut | configure.py:148 | setting a key gives it the new value and leaves every other key alone |
| Configure.KeysPut | configure.py:148 | setting a key keeps the order of keys, and a new key goes last |
| Configure.PutKeepsDistinct | configure.py:148 | keys stay distinct under a set |
| Configure.GetUpdate | configure.py:152 | after update, a key holds the update's value when it has one, and its old value otherwise |
| Configure.UpdateKeepsOrder | configure.py:152 | an update keeps the old keys, in order, ahead of the new ones |
| Configure.UpdateKeepsDistinct | configure.py:152 | keys stay distinct under an update |
| Configure.UpdateAllDistinct | configure.py:146-148 | the merge of the common files has distinct keys |
| Configure.MergedConfig | configure.py:150-152 | in a merged layer a common key wins over the node kind's own, and the kind's keys keep their order |
| Configure.MergeConfigs | configure.py:142-156 | each merged config is the kind's file updated with the in-order merge of the common files, with distinct keys |
| Run.Clamp | run.py:44-45 | the result lies in [-1, 1], is the input when the input is in range, and the nearer bound otherwise |
| Run.TankDrive | run.py:34-47 | left is y + x and right is y - x, each clamped to [-1, 1]; its properties are the lemmas below |
| Run.TankDriveBounded | run.py:43-45 | both speeds lie in [-1, 1] |
| Run.TankDriveExactInRange | run.py:40-45 | left is y + x when that is in range, and right is y - x when that is in range |
| Run.TankDriveMirror | run.py:40-41 | negating x swaps the two speeds |
| Run.TankDriveStraight | run.py:40-41 | with x = 0 both sides get the same speed |
| Run.Robot.RunRight | run.py:65-67 | the velocity commands of the right side: can21 and can22 at the speed |
| Run.Robot.RunLeft | run.py:70-72 | the velocity commands of the left side: can23 and can24 at the negated speed |
| Run.Robot.JoystickCommands | run.py:191-195 | the commands of the joystick branch: the mixer's pair bound as (right, left) and scaled by max_speed |
| Run.Robot.SidesOppose | run.py:65-72 | runRight drives can21 and can22 at the speed, and runLeft drives can23 and can24 at its negation |
| Run.Robot.JoystickSwapsSides | run.py:191-195 | as bound at the call site, the right side runs at the clamped y + x and the left side at minus the clamped y - x, both scaled by max_speed |
| Run.Robot.constructor | run.py:122-125 | the four nodes are 11, 22, 23 and 13 on one bus, all switched on |
| Run.Robot.ClearErr | run.py:74-78 | sends clear-errors to all four nodes in order, switched on or not |
| Run.Latches | run.py:87-91 | a message latches a node when it is the node's decodable heartbeat reporting the awaited state |
| Run.Verdicts | run.py:86-109 | the barrier's verdict after each message: raise on a short heartbeat of one of the four nodes, release once every node is latched or switched off, else go on |
| Run.FirstStop | run.py:86-109 | the first verdict that is not "go on": a release is the exit index, a raise a struct error, none a timeout |
| Run.Barrier | run.py:80-109 | where the barrier stops on a run of messages; its properties are the lemmas below |
| Run.FirstStopSpec | run.py:86-109 | the scan stops at the first raise or release from where it starts, every verdict before it going on, and times out exactly when every verdict from there goes on |
| Run.LatchStaysSet | run.py:81-106 | a latch, once set, stays set as more messages come in |
| Run.LatchedByIff | run.py:87-106 | a latch is set exactly when some message so far latches that node |
| Run.HeartbeatLatches | run.py:87-91 | a node's heartbeat latches it exactly when it reports the awaited state |
| Run.BarrierReleasesAtFirstReady | run.py:107-109 | the barrier exits at the first message after which every node is latched or switched off, with no malformed heartbeat up to it |
| Run.BarrierRaisesAtMalformed | run.py:87-88 | a raise happens at a heartbeat of one of the nodes too short to unpack, with no earlier message releasing or raising |
| Run.BarrierTimesOutIff | run.py:86-109 | the barrier runs out of messages exactly when no message releases it and none is a malformed heartbeat |
| Run.AllOffReleasesAtOnce | run.py:108-109 | with every node switched off, the barrier exits at the first message |
| Run.Listen | run.py:87-91 | one heartbeat check: a short heartbeat of the node raises, otherwise the latch becomes latch or "this message latches the node" |
| Run.Robot.WaitState | run.py:80-109 | the four-latch loop returns exactly what the barrier specification gives |
| Run.StateFramesOnlyEnabled | run.py:49-53 | every set-state frame goes to a switched-on node, and none are sent when all are off |
| Run.RequestState | run.py:50 | a switched-on node gets its set-state frame and its latch is cleared; a switched-off one keeps its latch and nothing is sent; the buffer and reports are unchanged |
| Run.Robot.SetStateAll | run.py:49-54 | sends the set-state frames of the switched-on nodes in order, clears their latches and keeps those of the switched-off nodes, leaves buffers and reports alone, then waits on the barrier |
| Run.Robot.SetOpen | run.py:49-55 | the set-state frames for closed-loop control (8), with the switched-on latches cleared and the others kept, then the barrier |
| Run.Robot.SetIdle | run.py:57-63 | the set-state frames for idle (1), with the switched-on latches cleared and the others kept, then the barrier |

## Left out

- set_velocity and set_position (can_simple_utils.py:82-94): their '<ff' and '<fff' float payloads are not modelled. A velocity command is the pair of node and speed (`Run.Velocity`).
- Float values from JSON: the configuration holds floats as binary32 bit patterns (`Float32.F32`). The rounding of a Python double to binary32 in '<f' is not modelled.
- Configure.Pack: an int of magnitude 2^24 or more written to a float endpoint gives `OutsideModel`, because its rounding to binary32 is not modelled.
- Configure.NonNaNAlwaysPasses: does not promise a pass when one side is an int beyond the double range, because there `math.isnan` raises OverflowError; it promises only that the write failure is not raised.
- Configure.EchoVerifies: does not cover an int beyond the double range written to a bool endpoint, because the echo then raises OverflowError, as `Configure.HugeIntIntoBoolOverflows` states.
- JSON values other than bool, int and float (strings, null, lists and objects, for which Python's struct.pack raises struct.error) cannot be written: the `Value` type holds only the three.
- Configure.FormatOf: its contract states only that a known tag's format is valid. The tag table itself is the function's body.
- python-can and asyncio plumbing are not modelled: the Notifier, AsyncBufferedReader, context managers, `asyncio.wait_for` and its one-second timeout. Inbound frames are finite sequences given as parameters, and a timeout is "no match".
- File I/O and JSON parsing: endpoint files are a map from path to parsed file, and configuration layers are lists of key and value pairs in insertion order.
- argparse, bus construction, and main's loop over the track and flipper node ids (configure.py:133-171) are not modelled. ConfigureNode models one iteration of that loop.
- CanSimple.CanSimpleNode.RebootMsg: the action is a byte. Python would raise for a value outside 0..255.
- Configure.Calibrate and Configure.WaitForState: the live bus is an endless stream. The model reads a finite sequence, and running out of messages is a `Timeout`.
- Run.Robot.WaitState: the same holds for the barrier. Running out of messages is a `Timeout`, where the script would block forever.
- Run.Robot.WaitState also takes the node ids as given and does not require them distinct. Two axes with one id would both latch on the same heartbeat, as in the script.
- Run.TankDrive: the mixer is over `real`. IEEE rounding and NaN inputs from the gamepad are not modelled.
- The gamepad (xbox_controller.py) and run.py's top-level loop are not modelled: the D-pad branches, trigger scaling, termios raw mode, sleeps and prints (run.py:111-202). Only the joystick branch's call site (run.py:191-195) is modelled.
- Printing of error descriptions is replaced by recording them in `CanSimpleNode.reports`.
