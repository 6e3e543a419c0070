/**
 * The endpoint (SDO) sub-protocol used to restore an ODrive configuration
 * over CANSimple: type tags and their struct formats, the read and write
 * request layouts, reply decoding, the Get_Version check, the write-then-read
 * verification, and the merge of configuration layers.
 */
module Configure {
  import opened Wrappers
  import opened Bytes
  import Float32
  import opened CanSimple

  const ENDPOINT_DIR: string := "flat_endpoints/"
  const TRACKS_NODE_IDS: seq<nat> := [11, 22, 23, 13]
  const FLIPPER_NODE_IDS: seq<nat> := []

  const IDLE: int := 1
  const CALIBRATION: int := 3

  const OPCODE_READ: byte := 0x00
  const OPCODE_WRITE: byte := 0x01

  const GET_VERSION_CMD: nat := 0x00
  const RX_SDO: nat := 0x04
  const TX_SDO: nat := 0x05

  // ---- Type tags and struct formats

  /** A struct format character: '?', an unsigned or signed integer of some width, or 'f'. */
  datatype Format = BoolFormat | Unsigned(width: nat) | Signed(width: nat) | FloatFormat

  /** The number of bytes a format occupies. */
  function Width(fmt: Format): nat
  {
    match fmt
    case BoolFormat => 1
    case Unsigned(w) => w
    case Signed(w) => w
    case FloatFormat => 4
  }

  predicate ValidFormat(fmt: Format)
  {
    Width(fmt) in {1, 2, 4, 8}
  }

  /** The format of an endpoint type tag; None is the KeyError of an unknown tag. */
  function FormatOf(tag: string): (r: Option<Format>)
    ensures r.Some? ==> ValidFormat(r.value)
  {
    if tag == "bool" then Some(BoolFormat)
    else if tag == "uint8" then Some(Unsigned(1))
    else if tag == "int8" then Some(Signed(1))
    else if tag == "uint16" then Some(Unsigned(2))
    else if tag == "int16" then Some(Signed(2))
    else if tag == "uint32" then Some(Unsigned(4))
    else if tag == "int32" then Some(Signed(4))
    else if tag == "uint64" then Some(Unsigned(8))
    else if tag == "int64" then Some(Signed(8))
    else if tag == "float" then Some(FloatFormat)
    else None
  }

  // ---- Values as the configuration files hold them

  /** A configuration value: a JSON boolean, integer, or a float given by its binary32 pattern. */
  datatype Value = BoolV(b: bool) | IntV(i: int) | FloatV(f: Float32.F32)

  /** The number a value stands for when Python compares it (True is 1, False is 0). */
  function NumOf(v: Value): Float32.Num
  {
    match v
    case BoolV(b) => Float32.Real(if b then 1.0 else 0.0)
    case IntV(i) => Float32.Real(i as real)
    case FloatV(f) => Float32.Value(f)
  }

  /** Python's == between two values. */
  predicate PyEq(a: Value, b: Value)
  {
    Float32.NumEq(NumOf(a), NumOf(b))
  }

  /** math.isnan of a value: only a float can be NaN. */
  predicate IsNaNValue(v: Value)
  {
    v.FloatV? && Float32.IsNaN(v.f)
  }

  /**
   * The least magnitude of an int that Python cannot convert to a float:
   * 2^1024 - 2^970, halfway between the largest double and 2^1024, which
   * rounds up to 2^1024 and so overflows.
   */
  const DOUBLE_OVERFLOW: int :=
    0xffffffff_fffffc00_00000000_00000000_00000000_00000000_00000000_00000000_00000000_00000000_00000000_00000000_00000000_00000000_00000000_00000000_00000000_00000000_00000000_00000000_00000000_00000000_00000000_00000000_00000000_00000000_00000000_00000000_00000000_00000000_00000000_00000000

  /** math.isnan of an int converts it to a float first, and raises OverflowError when it does not fit a double. */
  predicate IsNaNOverflows(v: Value)
  {
    v.IntV? && (v.i >= DOUBLE_OVERFLOW || v.i <= -DOUBLE_OVERFLOW)
  }

  /** Python truthiness: zero (of either sign) and False are false, everything else, NaN included, is true. */
  predicate Truthy(v: Value)
  {
    NumOf(v) != Float32.Real(0.0)
  }

  /** A boolean or integer as the integer struct packs. */
  function AsInt(v: Value): int
    requires !v.FloatV?
  {
    if v.BoolV? then (if v.b then 1 else 0) else v.i
  }

  /**
   * struct.pack of one value with a format. Integer formats refuse floats and
   * out-of-range integers; 'f' takes floats as they are and converts
   * integers, whose rounding beyond 2^24 in magnitude is outside this model.
   */
  function Pack(fmt: Format, v: Value): (r: Result<seq<byte>, Error>)
    requires ValidFormat(fmt)
    ensures r.Success? ==> |r.value| == Width(fmt)
    ensures fmt != FloatFormat ==> r.Failure? ==> r.error == StructError
    ensures fmt == BoolFormat ==> r.Success?
    ensures fmt.Unsigned? ==> (r.Success? <==> !v.FloatV? && 0 <= AsInt(v) < Pow256(fmt.width))
    ensures fmt.Signed? ==> (r.Success? <==> !v.FloatV? && InSignedRange(AsInt(v), fmt.width))
    ensures fmt == FloatFormat ==>
      (r.Success? <==> v.FloatV? || -(Float32.EXACT_INT_LIMIT as int) < AsInt(v) < Float32.EXACT_INT_LIMIT)
  {
    match fmt
    case BoolFormat => Success([if Truthy(v) then 1 else 0])
    case Unsigned(w) =>
      if v.FloatV? then Failure(StructError)
      else if 0 <= AsInt(v) < Pow256(w) then Success(LittleEndian(AsInt(v), w))
      else Failure(StructError)
    case Signed(w) =>
      if v.FloatV? then Failure(StructError)
      else if InSignedRange(AsInt(v), w) then Success(LittleEndian(ToTwosComplement(AsInt(v), w), w))
      else Failure(StructError)
    case FloatFormat =>
      if v.FloatV? then Success(LittleEndian(v.f, 4))
      else match Float32.FromInt(AsInt(v))
        case Some(f) => Success(LittleEndian(f, 4))
        case None => Failure(OutsideModel)
  }

  /** struct.unpack of one value: '?' reads any non-zero byte as True. */
  function Unpack(fmt: Format, bs: seq<byte>): (v: Value)
    requires ValidFormat(fmt) && |bs| == Width(fmt)
    ensures fmt == BoolFormat <==> v.BoolV?
    ensures fmt == FloatFormat <==> v.FloatV?
  {
    match fmt
    case BoolFormat => BoolV(bs[0] != 0)
    case Unsigned(_) => IntV(FromLittleEndian(bs))
    case Signed(w) => IntV(FromTwosComplement(FromLittleEndian(bs), w))
    case FloatFormat =>
      assert Pow256(4) == 0x1_0000_0000;
      FloatV(FromLittleEndian(bs))
  }

  /** An integer in the range of an integer format packs, and reads back unchanged. */
  lemma IntegerRoundTrip(fmt: Format, i: int)
    requires ValidFormat(fmt) && (fmt.Unsigned? || fmt.Signed?)
    requires fmt.Unsigned? ==> 0 <= i < Pow256(fmt.width)
    requires fmt.Signed? ==> InSignedRange(i, fmt.width)
    ensures Pack(fmt, IntV(i)).Success?
    ensures Unpack(fmt, Pack(fmt, IntV(i)).value) == IntV(i)
  {
    if fmt.Unsigned? {
      DecodeEncode(i, fmt.width);
    } else {
      DecodeEncode(ToTwosComplement(i, fmt.width), fmt.width);
      SignedRoundTrip(i, fmt.width);
    }
  }

  /** A float pattern packs and unpacks to itself with 'f'. */
  lemma FloatRoundTrip(f: Float32.F32)
    ensures Pack(FloatFormat, FloatV(f)).Success?
    ensures Unpack(FloatFormat, Pack(FloatFormat, FloatV(f)).value) == FloatV(f)
  {
    assert Pow256(4) == 0x1_0000_0000;
    DecodeEncode(f, 4);
  }

  /** '?' stores the truthiness of any value. */
  lemma BoolRoundTrip(v: Value)
    ensures Pack(BoolFormat, v).Success?
    ensures Unpack(BoolFormat, Pack(BoolFormat, v).value) == BoolV(Truthy(v))
  {
  }

  /**
   * val_pruned: the value the write is expected to read back. For a float
   * endpoint it is what 'f' stores; for any other endpoint the value itself.
   */
  function Pruned(fmt: Format, v: Value): (p: Value)
    requires ValidFormat(fmt) && Pack(fmt, v).Success?
    ensures fmt == FloatFormat ==> p.FloatV?
    ensures fmt != FloatFormat ==> p == v
  {
    if fmt == FloatFormat then Unpack(fmt, Pack(fmt, v).value) else v
  }

  /** A float endpoint expects back exactly the number that was written. */
  lemma PrunedKeepsNumber(v: Value)
    requires Pack(FloatFormat, v).Success?
    ensures Float32.NumEq(NumOf(Pruned(FloatFormat, v)), NumOf(v)) || (IsNaNValue(v) && IsNaNValue(Pruned(FloatFormat, v)))
  {
    assert Pow256(4) == 0x1_0000_0000;
    var bs := Pack(FloatFormat, v).value;
    if v.FloatV? {
      DecodeEncode(v.f, 4);
    } else {
      var f := Float32.FromInt(AsInt(v)).value;
      DecodeEncode(f, 4);
      Float32.FromIntExact(AsInt(v));
    }
  }

  // ---- The verification rule

  /**
   * The comparison after a write: equal values pass; otherwise math.isnan
   * is applied to both sides, which overflows on an int beyond the double
   * range, and a differing NaN-ness raises the write failure.
   */
  function Compare(returned: Value, expected: Value, path: string): (r: Result<(), Error>)
    ensures r.Success? || r == Failure(OverflowError) || r == Failure(WriteFailed(path))
    ensures PyEq(returned, expected) ==> r.Success?
  {
    if PyEq(returned, expected) then Success(())
    else if IsNaNOverflows(returned) || IsNaNOverflows(expected) then Failure(OverflowError)
    else if IsNaNValue(returned) != IsNaNValue(expected) then Failure(WriteFailed(path))
    else Success(())
  }

  /**
   * A write fails verification exactly when one side is NaN and the other is
   * not, and neither side is an int that math.isnan cannot convert.
   */
  lemma VerifyFailsIffNaNDiffers(returned: Value, expected: Value, path: string)
    ensures Compare(returned, expected, path) == Failure(WriteFailed(path)) <==>
      IsNaNValue(returned) != IsNaNValue(expected) && !IsNaNOverflows(returned) && !IsNaNOverflows(expected)
  {
    if IsNaNValue(returned) != IsNaNValue(expected) {
      assert NumOf(returned) == Float32.NotANumber || NumOf(expected) == Float32.NotANumber;
    }
  }

  /**
   * Two values neither of which is a NaN float never fail as a mismatch,
   * however different; they pass unless one is an int beyond the double range.
   */
  lemma NonNaNAlwaysPasses(returned: Value, expected: Value, path: string)
    requires !IsNaNValue(returned) && !IsNaNValue(expected)
    ensures Compare(returned, expected, path) != Failure(WriteFailed(path))
    ensures !IsNaNOverflows(returned) && !IsNaNOverflows(expected) ==> Compare(returned, expected, path).Success?
  {
  }

  // ---- Request and reply layouts

  /** The '<BHB' header: opcode, 16-bit endpoint id, and a zero byte. */
  function SdoHeader(opcode: byte, endpointId: int): (bs: seq<byte>)
    requires 0 <= endpointId < 0x1_0000
    ensures |bs| == 4 && bs[0] == opcode && bs[3] == 0
    ensures FromLittleEndian(bs[1..3]) == endpointId
  {
    assert Pow256(2) == 0x1_0000;
    var id := LittleEndian(endpointId, 2);
    DecodeEncode(endpointId, 2);
    assert ([opcode] + id + [0])[1..3] == id;
    [opcode] + id + [0]
  }

  /** The read request: the header alone, with the read opcode. */
  function ReadRequest(endpointId: int): (bs: seq<byte>)
    requires 0 <= endpointId < 0x1_0000
  {
    SdoHeader(OPCODE_READ, endpointId)
  }

  /** The write request: the header with the write opcode, then the packed value. */
  function WriteRequest(endpointId: int, fmt: Format, v: Value): (r: Result<seq<byte>, Error>)
    requires ValidFormat(fmt)
    ensures r.Success? <==> 0 <= endpointId < 0x1_0000 && Pack(fmt, v).Success?
    ensures r.Success? ==> |r.value| == 4 + Width(fmt)
  {
    if !(0 <= endpointId < 0x1_0000) then Failure(StructError)
    else match Pack(fmt, v)
      case Failure(e) => Failure(e)
      case Success(bs) => Success(SdoHeader(OPCODE_WRITE, endpointId) + bs)
  }

  /** The value of a reply: the bytes after the four header bytes, read with the endpoint's format. */
  function DecodeReply(fmt: Format, data: seq<byte>): (r: Result<Value, Error>)
    requires ValidFormat(fmt)
    ensures r.Success? <==> |data| >= 4 + Width(fmt)
  {
    if |data| < 4 + Width(fmt) then Failure(StructError)
    else Success(Unpack(fmt, data[4..4 + Width(fmt)]))
  }

  /** A reply decodes to the value laid out at offset 4, whatever its header and trailing bytes. */
  lemma ReplyValueAtOffsetFour(fmt: Format, header: seq<byte>, bs: seq<byte>, rest: seq<byte>)
    requires ValidFormat(fmt) && |header| == 4 && |bs| == Width(fmt)
    ensures DecodeReply(fmt, header + bs + rest) == Success(Unpack(fmt, bs))
  {
    assert (header + bs + rest)[4..4 + Width(fmt)] == bs;
  }

  /** An echoed write request decodes to what the packed value reads back as; for an integer, to the integer itself. */
  lemma DecodeEchoedWrite(endpointId: int, fmt: Format, v: Value)
    requires ValidFormat(fmt) && WriteRequest(endpointId, fmt, v).Success?
    ensures DecodeReply(fmt, WriteRequest(endpointId, fmt, v).value) == Success(Unpack(fmt, Pack(fmt, v).value))
    ensures v.IntV? && (fmt.Unsigned? || fmt.Signed?) ==> DecodeReply(fmt, WriteRequest(endpointId, fmt, v).value) == Success(v)
  {
    var bs := Pack(fmt, v).value;
    ReplyValueAtOffsetFour(fmt, SdoHeader(OPCODE_WRITE, endpointId), bs, []);
    assert WriteRequest(endpointId, fmt, v).value == SdoHeader(OPCODE_WRITE, endpointId) + bs + [];
    if v.IntV? && (fmt.Unsigned? || fmt.Signed?) {
      IntegerRoundTrip(fmt, v.i);
    }
  }

  /** A write request and a read request for the same endpoint share their id bytes, and differ in the opcode. */
  lemma RequestsShareHeader(endpointId: int, fmt: Format, v: Value)
    requires ValidFormat(fmt) && WriteRequest(endpointId, fmt, v).Success?
    ensures WriteRequest(endpointId, fmt, v).value[1..4] == ReadRequest(endpointId)[1..4]
    ensures WriteRequest(endpointId, fmt, v).value[0] == OPCODE_WRITE && ReadRequest(endpointId)[0] == OPCODE_READ
    ensures WriteRequest(endpointId, fmt, v).value[4..] == Pack(fmt, v).value
  {
  }

  /**
   * Whether a write of v verifies against a reply with the given payload:
   * a short reply raises, a NaN mismatch raises, anything else passes.
   */
  function Judge(fmt: Format, v: Value, reply: seq<byte>, path: string): (r: Result<(), Error>)
    requires ValidFormat(fmt) && Pack(fmt, v).Success?
    ensures r == Failure(StructError) <==> |reply| < 4 + Width(fmt)
    ensures r == Failure(WriteFailed(path)) <==>
      |reply| >= 4 + Width(fmt) && IsNaNValue(Unpack(fmt, reply[4..4 + Width(fmt)])) != IsNaNValue(Pruned(fmt, v))
      && !IsNaNOverflows(Unpack(fmt, reply[4..4 + Width(fmt)])) && !IsNaNOverflows(Pruned(fmt, v))
    ensures r == Failure(OverflowError) ==> fmt == BoolFormat && IsNaNOverflows(v)
    ensures r.Success? || r == Failure(StructError) || r == Failure(WriteFailed(path)) || r == Failure(OverflowError)
  {
    match DecodeReply(fmt, reply)
    case Failure(e) => Failure(e)
    case Success(returned) =>
      VerifyFailsIffNaNDiffers(returned, Pruned(fmt, v), path);
      OverflowNeedsBool(fmt, v, reply[4..4 + Width(fmt)]);
      Compare(returned, Pruned(fmt, v), path)
  }

  /**
   * Only a bool endpoint lets an int beyond the double range through: the
   * integer formats take at most 64 bits, and 'f' reads back a float.
   */
  lemma OverflowNeedsBool(fmt: Format, v: Value, bs: seq<byte>)
    requires ValidFormat(fmt) && Pack(fmt, v).Success? && |bs| == Width(fmt)
    ensures IsNaNOverflows(Unpack(fmt, bs)) || IsNaNOverflows(Pruned(fmt, v)) ==> fmt == BoolFormat && IsNaNOverflows(v)
  {
    if fmt.Unsigned? || fmt.Signed? {
      assert Pow256(Width(fmt)) <= 0x1_0000_0000_0000_0000 by {
        assert Pow256(8) == 0x1_0000_0000_0000_0000;
        if Width(fmt) < 8 {
          assert Pow256(4) == 0x1_0000_0000;
        }
      }
    }
  }

  /** An int beyond the double range written to a bool endpoint raises OverflowError on any reply long enough to decode. */
  lemma HugeIntIntoBoolOverflows(v: Value, reply: seq<byte>, path: string)
    requires IsNaNOverflows(v) && |reply| >= 5
    ensures Judge(BoolFormat, v, reply, path) == Failure(OverflowError)
  {
  }

  /** The bytes a value packs to read back as a value that passes the check against it. */
  lemma PackedValuePasses(fmt: Format, v: Value, path: string)
    requires ValidFormat(fmt) && Pack(fmt, v).Success?
    requires !(fmt == BoolFormat && (IsNaNValue(v) || IsNaNOverflows(v)))
    ensures Compare(Unpack(fmt, Pack(fmt, v).value), Pruned(fmt, v), path).Success?
  {
  }

  /**
   * A reply that echoes the write request verifies, unless a NaN or an int
   * beyond the double range was written to a bool endpoint.
   */
  lemma EchoVerifies(endpointId: int, fmt: Format, v: Value, path: string)
    requires ValidFormat(fmt) && WriteRequest(endpointId, fmt, v).Success?
    requires !(fmt == BoolFormat && (IsNaNValue(v) || IsNaNOverflows(v)))
    ensures Judge(fmt, v, WriteRequest(endpointId, fmt, v).value, path) == Success(())
  {
    DecodeEchoedWrite(endpointId, fmt, v);
    PackedValuePasses(fmt, v, path);
  }

  /** A write to a non-float endpoint of anything but NaN never fails verification, whatever comes back. */
  lemma IntegerWritesNeverMismatch(fmt: Format, v: Value, reply: seq<byte>, path: string)
    requires ValidFormat(fmt) && fmt != FloatFormat && Pack(fmt, v).Success? && !IsNaNValue(v)
    ensures Judge(fmt, v, reply, path) != Failure(WriteFailed(path))
  {
    if |reply| >= 4 + Width(fmt) {
      NonNaNAlwaysPasses(Unpack(fmt, reply[4..4 + Width(fmt)]), v, path);
    }
  }

  /** A NaN written to a bool endpoint fails verification on any reply long enough to decode. */
  lemma NaNIntoBoolFails(v: Value, reply: seq<byte>, path: string)
    requires IsNaNValue(v) && |reply| >= 5
    ensures Judge(BoolFormat, v, reply, path) == Failure(WriteFailed(path))
  {
    VerifyFailsIffNaNDiffers(Unpack(BoolFormat, reply[4..5]), v, path);
  }

  // ---- Get_Version

  /** Two texts joined by a dot. */
  function Dotted(x: string, y: string): string
  {
    x + "." + y
  }

  /** Three bytes written as "a.b.c". */
  function VersionText(a: byte, b: byte, c: byte): string
  {
    Dotted(Decimal(a), Dotted(Decimal(b), Decimal(c)))
  }

  datatype Versions = Versions(hw: string, fw: string)

  /**
   * The Get_Version reply: exactly eight bytes, of which bytes 1-3 are the
   * hardware version and bytes 4-6 the firmware version.
   */
  function DecodeVersions(data: seq<byte>): (r: Result<Versions, Error>)
    ensures r.Success? <==> |data| == 8
  {
    if |data| != 8 then Failure(StructError)
    else Success(Versions(VersionText(data[1], data[2], data[3]), VersionText(data[4], data[5], data[6])))
  }

  /** Bytes 0 and 7 of the reply play no part. */
  lemma VersionsIgnoreOuterBytes(data: seq<byte>, first: byte, last: byte)
    requires |data| == 8
    ensures DecodeVersions(data[0 := first][7 := last]) == DecodeVersions(data)
  {
  }

  /** The position of the first dot in s, or its length when there is none. */
  function DotIndex(s: string): (r: nat)
    ensures r <= |s|
  {
    if s == [] || s[0] == '.' then 0 else 1 + DotIndex(s[1..])
  }

  /** The first dot of a digit string joined to another text is the joining one. */
  lemma {:induction false} DotIndexOfDotted(x: string, y: string)
    requires forall k :: 0 <= k < |x| ==> '0' <= x[k] <= '9'
    ensures DotIndex(Dotted(x, y)) == |x|
  {
    if x != [] {
      assert Dotted(x, y)[1..] == Dotted(x[1..], y);
      DotIndexOfDotted(x[1..], y);
    }
  }

  /** Joining a digit string to any text with a dot can be undone. */
  lemma SplitAtDot(x: string, y: string, x': string, y': string)
    requires forall k :: 0 <= k < |x| ==> '0' <= x[k] <= '9'
    requires forall k :: 0 <= k < |x'| ==> '0' <= x'[k] <= '9'
    requires Dotted(x, y) == Dotted(x', y')
    ensures x == x' && y == y'
  {
    DotIndexOfDotted(x, y);
    DotIndexOfDotted(x', y');
    var s := Dotted(x, y);
    assert x == s[..|x|] == x';
    assert y == s[|x| + 1..] == y';
  }

  /** A version text names exactly one triple of bytes. */
  lemma VersionTextInjective(a: byte, b: byte, c: byte, a': byte, b': byte, c': byte)
    ensures VersionText(a, b, c) == VersionText(a', b', c') <==> a == a' && b == b' && c == c'
  {
    if VersionText(a, b, c) == VersionText(a', b', c') {
      var x, x' := Decimal(a), Decimal(a');
      var y, y' := Dotted(Decimal(b), Decimal(c)), Dotted(Decimal(b'), Decimal(c'));
      SplitAtDot(x, y, x', y');
      SplitAtDot(Decimal(b), Decimal(c), Decimal(b'), Decimal(c'));
      DecimalInjective(a, a');
      DecimalInjective(b, b');
      DecimalInjective(c, c');
    }
  }

  // ---- Endpoint files

  /** An entry of the endpoint map: the endpoint's id and its type tag. */
  datatype Endpoint = Endpoint(id: int, typeTag: string)

  /** An endpoint file: the versions it was made for and its endpoints by path. */
  datatype EndpointFile = EndpointFile(fwVersion: string, hwVersion: string, endpoints: map<string, Endpoint>)

  /** The endpoint file for a firmware version. */
  function EndpointPath(fw: string): string
  {
    ENDPOINT_DIR + fw + ".json"
  }

  /** What version_check loads and decides, given the payload of the Get_Version reply. */
  datatype Loaded = Loaded(file: EndpointFile, matches: bool)

  function CheckVersion(files: map<string, EndpointFile>, reply: seq<byte>): (r: Result<Loaded, Error>)
  {
    match DecodeVersions(reply)
    case Failure(e) => Failure(e)
    case Success(v) =>
      var path := EndpointPath(v.fw);
      if path !in files then Failure(FileNotFound(path))
      else Success(Loaded(files[path], files[path].fwVersion == v.fw && files[path].hwVersion == v.hw))
  }

  /**
   * The check passes exactly when the file named after the node's firmware
   * exists and records both the node's firmware and hardware versions.
   */
  lemma CheckVersionPasses(files: map<string, EndpointFile>, reply: seq<byte>)
    ensures CheckVersion(files, reply).Success? && CheckVersion(files, reply).value.matches <==>
      |reply| == 8 &&
      var fw := VersionText(reply[4], reply[5], reply[6]);
      EndpointPath(fw) in files &&
      files[EndpointPath(fw)].fwVersion == fw &&
      files[EndpointPath(fw)].hwVersion == VersionText(reply[1], reply[2], reply[3])
  {
  }

  /** The lookups of write_and_verify and the packed write request. */
  datatype Planned = Planned(endpoint: Endpoint, fmt: Format, request: seq<byte>)

  function PlanWrite(data: Option<EndpointFile>, path: string, v: Value): (r: Result<Planned, Error>)
    ensures r.Success? ==> ValidFormat(r.value.fmt) && Pack(r.value.fmt, v).Success?
    ensures r.Success? ==> 0 <= r.value.endpoint.id < 0x1_0000
    ensures r.Success? ==> data.Some? && path in data.value.endpoints
  {
    if data.None? then Failure(KeyError("endpoints"))
    else if path !in data.value.endpoints then Failure(KeyError(path))
    else
      var ep := data.value.endpoints[path];
      match FormatOf(ep.typeTag)
      case None => Failure(KeyError(ep.typeTag))
      case Some(fmt) =>
        match WriteRequest(ep.id, fmt, v)
        case Failure(e) => Failure(e)
        case Success(req) => Success(Planned(ep, fmt, req))
  }

  /** An unknown path is a KeyError naming it (and nothing is sent). */
  lemma UnknownPathFails(file: EndpointFile, path: string, v: Value)
    requires path !in file.endpoints
    ensures PlanWrite(Some(file), path, v) == Failure(KeyError(path))
  {
  }

  /** The frames write_and_verify sends: none when a lookup or the packing fails, else the write then the read. */
  function WriteFrames(data: Option<EndpointFile>, node: nat, path: string, v: Value): seq<Frame>
  {
    match PlanWrite(data, path, v)
    case Failure(_) => []
    case Success(p) =>
      [Frame(ArbitrationId(node, RX_SDO), p.request, false),
       Frame(ArbitrationId(node, RX_SDO), ReadRequest(p.endpoint.id), false)]
  }

  /** The outcome of write_and_verify when the frames in arrivals come in after the read request. */
  function WriteOutcome(data: Option<EndpointFile>, node: nat, path: string, v: Value, arrivals: seq<Frame>): Result<(), Error>
  {
    match PlanWrite(data, path, v)
    case Failure(e) => Failure(e)
    case Success(p) =>
      match FirstMatch(arrivals, ArbitrationId(node, TX_SDO))
      case None => Failure(Timeout)
      case Some(k) => Judge(p.fmt, v, arrivals[k].data, path)
  }

  /** The frames the k-th write sees arrive; a write with none of its own times out. */
  function ArrivalsFor(arrivals: seq<seq<Frame>>, k: nat): seq<Frame>
  {
    if k < |arrivals| then arrivals[k] else []
  }

  /** One write of a restore: its outcome and the frames it sent. */
  datatype Attempt = Attempt(outcome: Result<(), Error>, frames: seq<Frame>)

  /** The write of each entry of config, the k-th seeing the frames ArrivalsFor(arrivals, k). */
  function Attempts(data: Option<EndpointFile>, node: nat, config: seq<(string, Value)>, arrivals: seq<seq<Frame>>): (r: seq<Attempt>)
    ensures |r| == |config|
  {
    seq(|config|, k requires 0 <= k < |config| =>
      Attempt(WriteOutcome(data, node, config[k].0, config[k].1, ArrivalsFor(arrivals, k)),
              WriteFrames(data, node, config[k].0, config[k].1)))
  }

  /** How far a run of writes got: its outcome, the writes that succeeded, the frames sent. */
  datatype Progress = Progress(outcome: Result<(), Error>, written: nat, frames: seq<Frame>)

  /** Performs the writes in order; the first failing one ends the run. */
  function Run(attempts: seq<Attempt>): Progress
  {
    if attempts == [] then Progress(Success(()), 0, [])
    else
      var p := Run(attempts[..|attempts| - 1]);
      var last := attempts[|attempts| - 1];
      if p.outcome.Failure? then p
      else Progress(last.outcome, if last.outcome.Success? then p.written + 1 else p.written, p.frames + last.frames)
  }

  /** The Get_Version request that opens version_check. */
  function VersionRequest(node: nat): Frame
  {
    Frame(ArbitrationId(node, GET_VERSION_CMD), [], false)
  }

  /**
   * What version_check decides when the frames in arrivals come in: a
   * timeout with no reply, else the verdict on the first reply.
   */
  function VersionReply(files: map<string, EndpointFile>, node: nat, arrivals: seq<Frame>): Result<Loaded, Error>
  {
    match FirstMatch(arrivals, ArbitrationId(node, GET_VERSION_CMD))
    case None => Failure(Timeout)
    case Some(k) => CheckVersion(files, arrivals[k].data)
  }

  /** Whether the Get_Version exchange, with the frames in arrivals coming in, passes. */
  predicate VersionAccepted(files: map<string, EndpointFile>, node: nat, arrivals: seq<Frame>)
  {
    VersionReply(files, node, arrivals).Success? && VersionReply(files, node, arrivals).value.matches
  }

  // ---- Talking to one node

  class EndpointAccess {
    const node: CanSimpleNode
    /** The loaded endpoint file; None is the empty dictionary it starts as. */
    var endpointData: Option<EndpointFile>

    constructor(node: CanSimpleNode)
      ensures this.node == node && endpointData == None
    {
      this.node := node;
      endpointData := None;
    }

    /**
     * Asks the node for its versions, loads the endpoint file named after its
     * firmware, and reports whether the file was made for this firmware and
     * hardware. The frames in arrivals come in after the request.
     */
    method VersionCheck(files: map<string, EndpointFile>, arrivals: seq<Frame>) returns (r: Result<bool, Error>)
      modifies this, node, node.bus
      ensures node.bus.sent == old(node.bus.sent) + [VersionRequest(node.nodeId)]
      ensures match VersionReply(files, node.nodeId, arrivals)
        case Failure(e) => r == Failure(e) && endpointData == old(endpointData)
        case Success(l) => r == Success(l.matches) && endpointData == Some(l.file)
      ensures r == Success(true) <==> VersionAccepted(files, node.nodeId, arrivals)
      ensures node.connected == old(node.connected) && node.reports == old(node.reports)
    {
      node.FlushRx();
      node.bus.Send(VersionRequest(node.nodeId));
      node.Receive(arrivals);
      assert node.rx == arrivals;
      var msg := node.AwaitMsg(GET_VERSION_CMD);
      if msg.Failure? {
        return Failure(msg.error);
      }
      var versions := DecodeVersions(msg.value.data);
      if versions.Failure? {
        return Failure(versions.error);
      }
      var path := EndpointPath(versions.value.fw);
      if path !in files {
        return Failure(FileNotFound(path));
      }
      endpointData := Some(files[path]);
      if files[path].fwVersion != versions.value.fw {
        return Success(false);
      }
      if files[path].hwVersion != versions.value.hw {
        return Success(false);
      }
      return Success(true);
    }

    /**
     * Writes v to the endpoint at path, reads it back, and compares. The
     * frames in arrivals come in after the read request.
     */
    method WriteAndVerify(path: string, v: Value, arrivals: seq<Frame>) returns (r: Result<(), Error>)
      modifies node, node.bus
      ensures r == WriteOutcome(endpointData, node.nodeId, path, v, arrivals)
      ensures node.bus.sent == old(node.bus.sent) + WriteFrames(endpointData, node.nodeId, path, v)
      ensures node.connected == old(node.connected) && node.reports == old(node.reports)
    {
      var plan := PlanWrite(endpointData, path, v);
      if plan.Failure? {
        return Failure(plan.error);
      }
      var p := plan.value;
      node.bus.Send(Frame(ArbitrationId(node.nodeId, RX_SDO), p.request, false));
      node.FlushRx();
      node.bus.Send(Frame(ArbitrationId(node.nodeId, RX_SDO), ReadRequest(p.endpoint.id), false));
      node.Receive(arrivals);
      assert node.rx == arrivals;
      var msg := node.AwaitMsg(TX_SDO);
      if msg.Failure? {
        return Failure(msg.error);
      }
      var returned := DecodeReply(p.fmt, msg.value.data);
      if returned.Failure? {
        return Failure(returned.error);
      }
      var expected := Pruned(p.fmt, v);
      if !PyEq(returned.value, expected) {
        if IsNaNOverflows(returned.value) || IsNaNOverflows(expected) {
          return Failure(OverflowError);
        }
        if IsNaNValue(returned.value) != IsNaNValue(expected) {
          return Failure(WriteFailed(path));
        }
      }
      return Success(());
    }
  }

  /** One more write after a successful prefix is performed, and its frames follow the earlier ones. */
  lemma RunStep(attempts: seq<Attempt>, n: nat)
    requires n < |attempts| && Run(attempts[..n]).outcome.Success?
    ensures var p, a := Run(attempts[..n]), attempts[n];
      Run(attempts[..n + 1]) == Progress(a.outcome, if a.outcome.Success? then p.written + 1 else p.written, p.frames + a.frames)
  {
    assert attempts[..n + 1][..n] == attempts[..n];
  }

  /** Once a write has failed, the writes after it change nothing. */
  lemma {:induction false} RunStopsAtFailure(attempts: seq<Attempt>, n: nat)
    requires n <= |attempts| && Run(attempts[..n]).outcome.Failure?
    ensures Run(attempts) == Run(attempts[..n])
    decreases |attempts| - n
  {
    if n < |attempts| {
      assert attempts[..n + 1][..n] == attempts[..n];
      RunStopsAtFailure(attempts, n + 1);
    } else {
      assert attempts[..n] == attempts;
    }
  }

  /**
   * A run succeeds exactly when every write does; otherwise the writes before
   * the failing one all succeeded and the run fails as that one did.
   */
  lemma {:induction false} RunOutcome(attempts: seq<Attempt>)
    ensures Run(attempts).written <= |attempts|
    ensures Run(attempts).outcome.Success? <==> Run(attempts).written == |attempts|
    ensures forall k :: 0 <= k < Run(attempts).written ==> attempts[k].outcome.Success?
    ensures Run(attempts).outcome.Failure? ==> Run(attempts).outcome == attempts[Run(attempts).written].outcome
    decreases |attempts|
  {
    if attempts != [] {
      var front := attempts[..|attempts| - 1];
      RunOutcome(front);
      assert forall k :: 0 <= k < |front| ==> front[k] == attempts[k];
    }
  }

  lemma AppendAssociates(a: seq<Frame>, b: seq<Frame>, c: seq<Frame>)
    ensures (a + b) + c == a + (b + c)
  {
  }

  /**
   * Writes the entries of config in order, stopping at the first write that
   * fails; written counts the writes that succeeded.
   */
  method RestoreConfig(odrv: EndpointAccess, config: seq<(string, Value)>, arrivals: seq<seq<Frame>>)
    returns (r: Result<(), Error>, written: nat)
    modifies odrv.node, odrv.node.bus
    ensures var p := Run(Attempts(odrv.endpointData, odrv.node.nodeId, config, arrivals));
      r == p.outcome && written == p.written && odrv.node.bus.sent == old(odrv.node.bus.sent) + p.frames
    ensures odrv.node.connected == old(odrv.node.connected) && odrv.node.reports == old(odrv.node.reports)
  {
    ghost var attempts := Attempts(odrv.endpointData, odrv.node.nodeId, config, arrivals);
    written := 0;
    while written < |config|
      invariant written <= |config|
      invariant Run(attempts[..written]) == Progress(Success(()), written, Run(attempts[..written]).frames)
      invariant odrv.node.bus.sent == old(odrv.node.bus.sent) + Run(attempts[..written]).frames
      invariant odrv.node.connected == old(odrv.node.connected) && odrv.node.reports == old(odrv.node.reports)
    {
      ghost var before := odrv.node.bus.sent;
      RunStep(attempts, written);
      r := odrv.WriteAndVerify(config[written].0, config[written].1, ArrivalsFor(arrivals, written));
      assert r == attempts[written].outcome && odrv.node.bus.sent == before + attempts[written].frames;
      AppendAssociates(old(odrv.node.bus.sent), Run(attempts[..written]).frames, attempts[written].frames);
      if r.Failure? {
        RunStopsAtFailure(attempts, written + 1);
        return;
      }
      written := written + 1;
    }
    assert attempts[..written] == attempts;
    r := Success(());
  }

  // ---- Waiting for an axis state

  /**
   * The index of the message at which wait_state first answers True when it
   * is handed msgs one at a time, the latch starting as connected: a
   * malformed heartbeat before it raises, and running out of messages is a
   * timeout.
   */
  function AwaitState(connected: bool, node: nat, stateWaited: int, msgs: seq<Frame>): (r: Result<nat, Error>)
    ensures r.Success? ==> r.value < |msgs|
    decreases |msgs|
  {
    if msgs == [] then Failure(Timeout)
    else match Observe(connected, node, stateWaited, msgs[0])
      case AlreadyConnected => Success(0)
      case Reached(_) => Success(0)
      case Malformed => Failure(StructError)
      case Ignored =>
        match AwaitState(connected, node, stateWaited, msgs[1..])
        case Failure(e) => Failure(e)
        case Success(k) => Success(k + 1)
  }

  /**
   * After the latch is cleared, the wait ends at the first heartbeat of this
   * node in the awaited state, every message before it being ignored.
   */
  lemma {:induction false} AwaitStateFirstReached(node: nat, stateWaited: int, msgs: seq<Frame>)
    requires AwaitState(false, node, stateWaited, msgs).Success?
    ensures var k := AwaitState(false, node, stateWaited, msgs).value;
      Observe(false, node, stateWaited, msgs[k]).Reached? &&
      forall j :: 0 <= j < k ==> Observe(false, node, stateWaited, msgs[j]) == Ignored
    decreases |msgs|
  {
    if Observe(false, node, stateWaited, msgs[0]).Ignored? {
      AwaitStateFirstReached(node, stateWaited, msgs[1..]);
    }
  }

  /** Once connected, the wait ends at the first message, whatever it is. */
  lemma AwaitStateWhenConnected(node: nat, stateWaited: int, msgs: seq<Frame>)
    requires msgs != []
    ensures AwaitState(true, node, stateWaited, msgs) == Success(0)
  {
  }

  /**
   * The frames wait_state sends while msgs are handed to it one at a time:
   * a clear-errors when the heartbeat that ends the wait carries an error
   * word, and nothing otherwise.
   */
  function AwaitFrames(connected: bool, node: nat, stateWaited: int, msgs: seq<Frame>): seq<Frame>
    decreases |msgs|
  {
    if msgs == [] then []
    else match Observe(connected, node, stateWaited, msgs[0])
      case Reached(e) => if e != 0 then [ClearErrorsFrame(node, false)] else []
      case Ignored => AwaitFrames(connected, node, stateWaited, msgs[1..])
      case _ => []
  }

  /**
   * A wait sends at most one frame, a clear-errors, and sends it exactly when
   * the heartbeat that ends the wait carries a non-zero error word.
   */
  lemma {:induction false} AwaitFramesSpec(connected: bool, node: nat, stateWaited: int, msgs: seq<Frame>)
    ensures AwaitFrames(connected, node, stateWaited, msgs) == []
      || AwaitFrames(connected, node, stateWaited, msgs) == [ClearErrorsFrame(node, false)]
    ensures AwaitFrames(connected, node, stateWaited, msgs) != [] <==>
      AwaitState(connected, node, stateWaited, msgs).Success? &&
      var o := Observe(connected, node, stateWaited, msgs[AwaitState(connected, node, stateWaited, msgs).value]);
      o.Reached? && o.error != 0
    decreases |msgs|
  {
    if msgs != [] && Observe(connected, node, stateWaited, msgs[0]).Ignored? {
      AwaitFramesSpec(connected, node, stateWaited, msgs[1..]);
      if AwaitState(connected, node, stateWaited, msgs[1..]).Success? {
        var k := AwaitState(connected, node, stateWaited, msgs[1..]).value;
        assert msgs[1..][k] == msgs[k + 1];
      }
    }
  }

  /** Feeds msgs to wait_state until it answers True, as configure does after requesting calibration. */
  method WaitForState(node: CanSimpleNode, stateWaited: int, msgs: seq<Frame>) returns (r: Result<nat, Error>)
    modifies node, node.bus
    ensures r == AwaitState(old(node.connected), node.nodeId, stateWaited, msgs)
    ensures r.Success? ==> node.connected
    ensures node.bus.sent == old(node.bus.sent) + AwaitFrames(old(node.connected), node.nodeId, stateWaited, msgs)
    ensures node.rx == old(node.rx)
  {
    var i := 0;
    while i < |msgs|
      invariant i <= |msgs|
      invariant node.bus.sent == old(node.bus.sent)
      invariant AwaitState(old(node.connected), node.nodeId, stateWaited, msgs)
        == (match AwaitState(node.connected, node.nodeId, stateWaited, msgs[i..])
            case Failure(e) => Failure(e)
            case Success(k) => Success(k + i))
      invariant AwaitFrames(old(node.connected), node.nodeId, stateWaited, msgs)
        == AwaitFrames(node.connected, node.nodeId, stateWaited, msgs[i..])
      invariant node.connected == old(node.connected)
      invariant node.rx == old(node.rx)
      decreases |msgs| - i
    {
      assert msgs[i..][1..] == msgs[i + 1..];
      assert msgs[i..][0] == msgs[i];
      var answer := node.WaitState(stateWaited, msgs[i]);
      if answer.Failure? {
        return Failure(answer.error);
      }
      if answer.value {
        return Success(i);
      }
      i := i + 1;
    }
    return Failure(Timeout);
  }

  /** The set-state request configure sends to start calibration. */
  function CalibrationRequest(node: nat): Frame
  {
    Frame(ArbitrationId(node, SET_AXIS_STATE_CMD), LittleEndian(CALIBRATION, 4), false)
  }

  /**
   * The frames of calibration: the request, what wait_state sends while the
   * node calibrates, then save-and-reboot once it is idle again.
   */
  function CalibrationFrames(node: nat, msgs: seq<Frame>): seq<Frame>
  {
    [CalibrationRequest(node)] + AwaitFrames(false, node, IDLE, msgs)
      + (if AwaitState(false, node, IDLE, msgs).Success? then [RebootFrame(node, REBOOT_ACTION_SAVE)] else [])
  }

  /**
   * Calibration opens with its request and, when the node comes back to
   * idle, ends with save-and-reboot; when the wait fails, the request is all
   * that is sent. In between at most one clear-errors is sent.
   */
  lemma CalibrationFramesShape(node: nat, msgs: seq<Frame>)
    ensures var fs := CalibrationFrames(node, msgs);
      fs[0] == CalibrationRequest(node) && 1 <= |fs| <= 3
    ensures var fs := CalibrationFrames(node, msgs);
      AwaitState(false, node, IDLE, msgs).Success? ==> fs[|fs| - 1] == RebootFrame(node, REBOOT_ACTION_SAVE)
    ensures AwaitState(false, node, IDLE, msgs).Failure? ==> CalibrationFrames(node, msgs) == [CalibrationRequest(node)]
    ensures forall k :: 1 <= k < |CalibrationFrames(node, msgs)| ==>
      CalibrationFrames(node, msgs)[k] in {ClearErrorsFrame(node, false), RebootFrame(node, REBOOT_ACTION_SAVE)}
  {
    AwaitFramesSpec(false, node, IDLE, msgs);
  }

  /**
   * The calibration of configure: request the calibration state, wait on
   * msgs for the node to be idle again, then save and reboot.
   */
  method Calibrate(node: CanSimpleNode, msgs: seq<Frame>) returns (r: Result<nat, Error>)
    modifies node, node.bus
    ensures r == AwaitState(false, node.nodeId, IDLE, msgs)
    ensures node.bus.sent == old(node.bus.sent) + CalibrationFrames(node.nodeId, msgs)
  {
    assert StatePayload(CALIBRATION).Success?;
    var requested := node.SetStateMsg(CALIBRATION);
    assert requested.Success? && !node.connected;
    ghost var sent0 := node.bus.sent;
    r := WaitForState(node, IDLE, msgs);
    ghost var sent1 := node.bus.sent;
    if r.Success? {
      node.RebootMsg(REBOOT_ACTION_SAVE);
    }
    assert node.bus.sent == sent1 + (if r.Success? then [RebootFrame(node.nodeId, REBOOT_ACTION_SAVE)] else []);
    AppendAssociates(old(node.bus.sent), [CalibrationRequest(node.nodeId)], AwaitFrames(false, node.nodeId, IDLE, msgs));
    AppendAssociates(old(node.bus.sent), [CalibrationRequest(node.nodeId)] + AwaitFrames(false, node.nodeId, IDLE, msgs),
                     if r.Success? then [RebootFrame(node.nodeId, REBOOT_ACTION_SAVE)] else []);
  }

  // ---- Configuring one node

  /** The writes of restore_config with the endpoint file a passing version check loaded. */
  function Restore(file: EndpointFile, node: nat, config: Config, writeArrivals: seq<seq<Frame>>): Progress
  {
    Run(Attempts(Some(file), node, config, writeArrivals))
  }

  /**
   * The outcome of configure up to calibration: a failed version check
   * raises, matching versions give the outcome of the restore, and a
   * mismatch returns without restoring.
   */
  function SetupOutcome(reply: Result<Loaded, Error>, node: nat, config: Config, writeArrivals: seq<seq<Frame>>): Result<(), Error>
  {
    match reply
    case Failure(e) => Failure(e)
    case Success(l) => if l.matches then Restore(l.file, node, config, writeArrivals).outcome else Success(())
  }

  /**
   * The frames configure sends between Get_Version and calibration: the
   * restore's writes, then save-and-reboot when saving was asked and every
   * write passed; nothing unless the versions match.
   */
  function SetupFrames(reply: Result<Loaded, Error>, node: nat, config: Config, writeArrivals: seq<seq<Frame>>, saveConfig: bool): seq<Frame>
  {
    if reply.Success? && reply.value.matches then
      var p := Restore(reply.value.file, node, config, writeArrivals);
      p.frames + (if p.outcome.Success? && saveConfig then [RebootFrame(node, REBOOT_ACTION_SAVE)] else [])
    else []
  }

  /** What configure returns for one node: the setup's failure, else the calibration wait's. */
  function ConfigureOutcome(reply: Result<Loaded, Error>, node: nat, config: Config, writeArrivals: seq<seq<Frame>>,
                            calibrate: bool, busMsgs: seq<Frame>): Result<(), Error>
  {
    var setup := SetupOutcome(reply, node, config, writeArrivals);
    if setup.Failure? || !calibrate then setup
    else match AwaitState(false, node, IDLE, busMsgs)
      case Failure(e) => Failure(e)
      case Success(_) => Success(())
  }

  /** Every frame configure sends for one node, in order. */
  function ConfigureFrames(reply: Result<Loaded, Error>, node: nat, config: Config, writeArrivals: seq<seq<Frame>>,
                           saveConfig: bool, calibrate: bool, busMsgs: seq<Frame>): seq<Frame>
  {
    [VersionRequest(node)] + SetupFrames(reply, node, config, writeArrivals, saveConfig)
      + (if SetupOutcome(reply, node, config, writeArrivals).Success? && calibrate then CalibrationFrames(node, busMsgs) else [])
  }

  /** Every frame a run of writes sends has the id each of its writes uses. */
  lemma {:induction false} RunFramesHaveId(attempts: seq<Attempt>, id: nat)
    requires forall k, f :: 0 <= k < |attempts| && f in attempts[k].frames ==> f.id == id
    ensures forall f :: f in Run(attempts).frames ==> f.id == id
    decreases |attempts|
  {
    if attempts != [] {
      var front := attempts[..|attempts| - 1];
      assert forall k :: 0 <= k < |front| ==> front[k] == attempts[k];
      RunFramesHaveId(front, id);
    }
  }

  /** The restore sends only RxSdo frames of the node. */
  lemma RestoreSendsOnlySdo(file: EndpointFile, node: nat, config: Config, writeArrivals: seq<seq<Frame>>)
    ensures forall f :: f in Restore(file, node, config, writeArrivals).frames ==> f.id == ArbitrationId(node, RX_SDO)
  {
    var attempts := Attempts(Some(file), node, config, writeArrivals);
    forall k, f | 0 <= k < |attempts| && f in attempts[k].frames
      ensures f.id == ArbitrationId(node, RX_SDO)
    {
      assert attempts[k].frames == WriteFrames(Some(file), node, config[k].0, config[k].1);
    }
    RunFramesHaveId(attempts, ArbitrationId(node, RX_SDO));
  }

  /** The ids of the requests configure sends differ from the node's RxSdo id and from each other. */
  lemma CommandIdsDiffer(node: nat)
    ensures VersionRequest(node).id != ArbitrationId(node, RX_SDO)
    ensures CalibrationRequest(node).id != ArbitrationId(node, RX_SDO)
    ensures ClearErrorsFrame(node, false).id != ArbitrationId(node, RX_SDO)
    ensures RebootFrame(node, REBOOT_ACTION_SAVE).id != ArbitrationId(node, RX_SDO)
    ensures CalibrationRequest(node) != VersionRequest(node)
    ensures CalibrationRequest(node) != RebootFrame(node, REBOOT_ACTION_SAVE)
    ensures CalibrationRequest(node) != ClearErrorsFrame(node, false)
  {
    ArbitrationIdInjective(node, GET_VERSION_CMD, node, RX_SDO);
    ArbitrationIdInjective(node, SET_AXIS_STATE_CMD, node, RX_SDO);
    ArbitrationIdInjective(node, CLEAR_ERRORS_CMD, node, RX_SDO);
    ArbitrationIdInjective(node, REBOOT_CMD, node, RX_SDO);
    ArbitrationIdInjective(node, SET_AXIS_STATE_CMD, node, GET_VERSION_CMD);
    ArbitrationIdInjective(node, SET_AXIS_STATE_CMD, node, REBOOT_CMD);
    ArbitrationIdInjective(node, SET_AXIS_STATE_CMD, node, CLEAR_ERRORS_CMD);
  }

  /**
   * Without matching versions nothing is restored or saved: after the
   * Get_Version request only calibration may follow, and no RxSdo frame is
   * ever sent.
   */
  lemma NoRestoreWithoutVersion(reply: Result<Loaded, Error>, node: nat, config: Config, writeArrivals: seq<seq<Frame>>,
                                saveConfig: bool, calibrate: bool, busMsgs: seq<Frame>)
    requires !(reply.Success? && reply.value.matches)
    ensures ConfigureFrames(reply, node, config, writeArrivals, saveConfig, calibrate, busMsgs)
      == [VersionRequest(node)] + (if reply.Success? && calibrate then CalibrationFrames(node, busMsgs) else [])
    ensures forall f :: f in ConfigureFrames(reply, node, config, writeArrivals, saveConfig, calibrate, busMsgs) ==>
                f.id != ArbitrationId(node, RX_SDO)
  {
    CommandIdsDiffer(node);
    CalibrationFramesShape(node, busMsgs);
    var fs := ConfigureFrames(reply, node, config, writeArrivals, saveConfig, calibrate, busMsgs);
    assert fs == [VersionRequest(node)] + (if reply.Success? && calibrate then CalibrationFrames(node, busMsgs) else []);
    forall f | f in fs
      ensures f.id != ArbitrationId(node, RX_SDO)
    {
      var k :| 0 <= k < |fs| && fs[k] == f;
      if k > 0 {
        assert f == CalibrationFrames(node, busMsgs)[k - 1];
      }
    }
  }

  /**
   * With matching versions the restore's frames come right after the
   * Get_Version request, and the frame after them is save-and-reboot exactly
   * when saving was asked and every write passed.
   */
  lemma SaveFollowsRestore(reply: Result<Loaded, Error>, node: nat, config: Config, writeArrivals: seq<seq<Frame>>,
                           saveConfig: bool, calibrate: bool, busMsgs: seq<Frame>)
    requires reply.Success? && reply.value.matches
    ensures var p := Restore(reply.value.file, node, config, writeArrivals);
      var fs := ConfigureFrames(reply, node, config, writeArrivals, saveConfig, calibrate, busMsgs);
      1 + |p.frames| <= |fs| && fs[..1 + |p.frames|] == [VersionRequest(node)] + p.frames
    ensures var p := Restore(reply.value.file, node, config, writeArrivals);
      var fs := ConfigureFrames(reply, node, config, writeArrivals, saveConfig, calibrate, busMsgs);
      (1 + |p.frames| < |fs| && fs[1 + |p.frames|] == RebootFrame(node, REBOOT_ACTION_SAVE)) <==> p.outcome.Success? && saveConfig
  {
    var p := Restore(reply.value.file, node, config, writeArrivals);
    var fs := ConfigureFrames(reply, node, config, writeArrivals, saveConfig, calibrate, busMsgs);
    var save := if p.outcome.Success? && saveConfig then [RebootFrame(node, REBOOT_ACTION_SAVE)] else [];
    var cal := if p.outcome.Success? && calibrate then CalibrationFrames(node, busMsgs) else [];
    assert fs == [VersionRequest(node)] + p.frames + save + cal;
    assert fs[..1 + |p.frames|] == [VersionRequest(node)] + p.frames;
    CommandIdsDiffer(node);
    CalibrationFramesShape(node, busMsgs);
    if save == [] && cal != [] {
      assert fs[1 + |p.frames|] == CalibrationRequest(node);
    }
  }

  /** Calibration is requested exactly when it was asked for and the setup before it did not raise. */
  lemma CalibratesIff(reply: Result<Loaded, Error>, node: nat, config: Config, writeArrivals: seq<seq<Frame>>,
                      saveConfig: bool, calibrate: bool, busMsgs: seq<Frame>)
    ensures CalibrationRequest(node) in ConfigureFrames(reply, node, config, writeArrivals, saveConfig, calibrate, busMsgs)
      <==> calibrate && SetupOutcome(reply, node, config, writeArrivals).Success?
  {
    var setup := SetupFrames(reply, node, config, writeArrivals, saveConfig);
    var cal := if SetupOutcome(reply, node, config, writeArrivals).Success? && calibrate then CalibrationFrames(node, busMsgs) else [];
    CommandIdsDiffer(node);
    CalibrationFramesShape(node, busMsgs);
    if reply.Success? && reply.value.matches {
      RestoreSendsOnlySdo(reply.value.file, node, config, writeArrivals);
    }
    assert CalibrationRequest(node) !in setup;
    assert ConfigureFrames(reply, node, config, writeArrivals, saveConfig, calibrate, busMsgs) == [VersionRequest(node)] + setup + cal;
    if cal != [] {
      assert cal[0] == CalibrationRequest(node);
    }
  }

  /**
   * configure fails exactly when the version check raises, when the versions
   * match and a write fails, or when calibration was asked for and the wait
   * for idle fails.
   */
  lemma ConfigureFailsIff(files: map<string, EndpointFile>, node: nat, config: Config, versionArrivals: seq<Frame>,
                          writeArrivals: seq<seq<Frame>>, calibrate: bool, busMsgs: seq<Frame>)
    ensures ConfigureOutcome(VersionReply(files, node, versionArrivals), node, config, writeArrivals, calibrate, busMsgs).Failure?
      <==> (VersionReply(files, node, versionArrivals).Failure?
            || (VersionAccepted(files, node, versionArrivals)
                && Restore(VersionReply(files, node, versionArrivals).value.file, node, config, writeArrivals).outcome.Failure?)
            || (calibrate && AwaitState(false, node, IDLE, busMsgs).Failure?))
  {
  }

  /**
   * The part of configure before calibration: the version check, then the
   * restore and the optional save when the versions match.
   */
  method Setup(odrv: EndpointAccess, files: map<string, EndpointFile>, versionArrivals: seq<Frame>,
               config: Config, writeArrivals: seq<seq<Frame>>, saveConfig: bool)
    returns (r: Result<(), Error>, versionOk: bool)
    modifies odrv, odrv.node, odrv.node.bus
    ensures versionOk <==> VersionAccepted(files, odrv.node.nodeId, versionArrivals)
    ensures r == SetupOutcome(VersionReply(files, odrv.node.nodeId, versionArrivals), odrv.node.nodeId, config, writeArrivals)
    ensures odrv.node.bus.sent == old(odrv.node.bus.sent) + [VersionRequest(odrv.node.nodeId)]
      + SetupFrames(VersionReply(files, odrv.node.nodeId, versionArrivals), odrv.node.nodeId, config, writeArrivals, saveConfig)
  {
    var node := odrv.node;
    ghost var reply := VersionReply(files, node.nodeId, versionArrivals);
    var check := odrv.VersionCheck(files, versionArrivals);
    versionOk := check == Success(true);
    if check.Failure? {
      return Failure(check.error), versionOk;
    }
    if !versionOk {
      return Success(()), versionOk;
    }
    ghost var afterCheck := node.bus.sent;
    var written;
    r, written := RestoreConfig(odrv, config, writeArrivals);
    if r.Success? && saveConfig {
      node.RebootMsg(REBOOT_ACTION_SAVE);
      AppendAssociates(afterCheck, Restore(reply.value.file, node.nodeId, config, writeArrivals).frames,
                       [RebootFrame(node.nodeId, REBOOT_ACTION_SAVE)]);
    }
  }

  /**
   * configure for one node: check the version, restore and optionally save
   * when the versions match, then optionally calibrate and save. The first
   * failure ends the run. versionOk is what version_check returned.
   */
  method ConfigureNode(bus: Bus, nodeId: nat, config: Config, files: map<string, EndpointFile>,
                       versionArrivals: seq<Frame>, writeArrivals: seq<seq<Frame>>,
                       saveConfig: bool, calibrate: bool, busMsgs: seq<Frame>)
    returns (r: Result<(), Error>, versionOk: bool)
    modifies bus
    ensures versionOk <==> VersionAccepted(files, nodeId, versionArrivals)
    ensures r == ConfigureOutcome(VersionReply(files, nodeId, versionArrivals), nodeId, config, writeArrivals, calibrate, busMsgs)
    ensures bus.sent == old(bus.sent)
      + ConfigureFrames(VersionReply(files, nodeId, versionArrivals), nodeId, config, writeArrivals, saveConfig, calibrate, busMsgs)
  {
    ghost var reply := VersionReply(files, nodeId, versionArrivals);
    ghost var head := [VersionRequest(nodeId)] + SetupFrames(reply, nodeId, config, writeArrivals, saveConfig);
    var node := new CanSimpleNode(bus, nodeId);
    var odrv := new EndpointAccess(node);
    r, versionOk := Setup(odrv, files, versionArrivals, config, writeArrivals, saveConfig);
    AppendAssociates(old(bus.sent), [VersionRequest(nodeId)], SetupFrames(reply, nodeId, config, writeArrivals, saveConfig));
    if r.Failure? || !calibrate {
      return;
    }
    var calibrated := Calibrate(node, busMsgs);
    AppendAssociates(old(bus.sent), head, CalibrationFrames(nodeId, busMsgs));
    r := if calibrated.Failure? then Failure(calibrated.error) else Success(());
  }

  // ---- Configuration layers

  /** A JSON object as Python's dict holds it: key and value pairs in insertion order. */
  type Config = seq<(string, Value)>

  function Keys(d: Config): (ks: seq<string>)
    ensures |ks| == |d|
  {
    seq(|d|, k requires 0 <= k < |d| => d[k].0)
  }

  predicate DistinctKeys(d: Config)
  {
    forall i, j :: 0 <= i < j < |d| ==> d[i].0 != d[j].0
  }

  /** d[key], or None for the KeyError of a missing key. */
  function Get(d: Config, key: string): (r: Option<Value>)
    ensures r.Some? <==> key in Keys(d)
  {
    if d == [] then None
    else if d[0].0 == key then
      assert Keys(d)[0] == key;
      Some(d[0].1)
    else
      assert Keys(d) == [d[0].0] + Keys(d[1..]);
      Get(d[1..], key)
  }

  /** d[key] = v: a present key keeps its place and takes the new value; a new key goes last. */
  function Put(d: Config, key: string, v: Value): Config
  {
    if d == [] then [(key, v)]
    else if d[0].0 == key then [(key, v)] + d[1..]
    else [d[0]] + Put(d[1..], key, v)
  }

  /** d.update(e): the entries of e put into d in e's order. */
  function Update(d: Config, e: Config): Config
    decreases |e|
  {
    if e == [] then d else Update(Put(d, e[0].0, e[0].1), e[1..])
  }

  /** The layers put one after another into an empty dictionary. */
  function UpdateAll(layers: seq<Config>): Config
  {
    if layers == [] then [] else Update(UpdateAll(layers[..|layers| - 1]), layers[|layers| - 1])
  }

  /** Putting a key sets its value and leaves every other key alone. */
  lemma {:induction false} GetPut(d: Config, key: string, v: Value, other: string)
    ensures Get(Put(d, key, v), other) == if other == key then Some(v) else Get(d, other)
  {
    if d != [] && d[0].0 != key {
      GetPut(d[1..], key, v, other);
    }
  }

  /** The keys of an entry followed by a dictionary. */
  lemma KeysCons(x: (string, Value), rest: Config)
    ensures Keys([x] + rest) == [x.0] + Keys(rest)
  {
    var d := [x] + rest;
    assert forall k :: 0 <= k < |rest| ==> d[k + 1] == rest[k];
  }

  /** Putting a key keeps the order of the keys, adding a new one at the end. */
  lemma {:induction false} KeysPut(d: Config, key: string, v: Value)
    ensures Keys(Put(d, key, v)) == if key in Keys(d) then Keys(d) else Keys(d) + [key]
  {
    if d != [] {
      assert d == [d[0]] + d[1..];
      KeysCons(d[0], d[1..]);
      if d[0].0 != key {
        KeysPut(d[1..], key, v);
        KeysCons(d[0], Put(d[1..], key, v));
      } else {
        KeysCons((key, v), d[1..]);
      }
    }
  }

  /** A dictionary keeps its keys distinct under Put. */
  lemma PutKeepsDistinct(d: Config, key: string, v: Value)
    requires DistinctKeys(d)
    ensures DistinctKeys(Put(d, key, v))
  {
    KeysPut(d, key, v);
    var d' := Put(d, key, v);
    assert forall i :: 0 <= i < |d'| ==> d'[i].0 == Keys(d')[i];
    assert forall i :: 0 <= i < |d| ==> d[i].0 == Keys(d)[i];
  }

  /** After an update, a key holds e's value when e has it, and its old value otherwise. */
  lemma {:induction false} GetUpdate(d: Config, e: Config, key: string)
    requires DistinctKeys(e)
    ensures Get(Update(d, e), key) == if key in Keys(e) then Get(e, key) else Get(d, key)
    decreases |e|
  {
    if e != [] {
      assert Keys(e) == [e[0].0] + Keys(e[1..]);
      GetUpdate(Put(d, e[0].0, e[0].1), e[1..], key);
      GetPut(d, e[0].0, e[0].1, key);
      if e[0].0 == key {
        assert key !in Keys(e[1..]);
      }
    }
  }

  /** An update keeps the keys the dictionary had, in their order, ahead of any new ones. */
  lemma {:induction false} UpdateKeepsOrder(d: Config, e: Config)
    ensures Keys(d) <= Keys(Update(d, e))
    decreases |e|
  {
    if e != [] {
      KeysPut(d, e[0].0, e[0].1);
      UpdateKeepsOrder(Put(d, e[0].0, e[0].1), e[1..]);
    }
  }

  /** An update of a dictionary with distinct keys has distinct keys. */
  lemma {:induction false} UpdateKeepsDistinct(d: Config, e: Config)
    requires DistinctKeys(d)
    ensures DistinctKeys(Update(d, e))
    decreases |e|
  {
    if e != [] {
      PutKeepsDistinct(d, e[0].0, e[0].1);
      UpdateKeepsDistinct(Put(d, e[0].0, e[0].1), e[1..]);
    }
  }

  /** Merging the common files in order gives a dictionary with distinct keys. */
  lemma {:induction false} UpdateAllDistinct(layers: seq<Config>)
    ensures DistinctKeys(UpdateAll(layers))
  {
    if layers != [] {
      UpdateAllDistinct(layers[..|layers| - 1]);
      UpdateKeepsDistinct(UpdateAll(layers[..|layers| - 1]), layers[|layers| - 1]);
    }
  }

  /**
   * The merged configuration of a node kind: its own file, then every common
   * file on top. A common key wins over the kind's own; the kind's own keys
   * come first.
   */
  lemma MergedConfig(own: Config, common: Config, key: string)
    requires DistinctKeys(own) && DistinctKeys(common)
    ensures Get(Update(Update([], own), common), key) == if key in Keys(common) then Get(common, key) else Get(own, key)
    ensures Keys(Update([], own)) <= Keys(Update(Update([], own), common))
  {
    GetUpdate(Update([], own), common, key);
    GetUpdate([], own, key);
    UpdateKeepsOrder(Update([], own), common);
  }

  /**
   * The configuration merge of main: the common files merged in order, then
   * each node kind's file with the common configuration on top.
   */
  method MergeConfigs(commonFiles: seq<Config>, trackFile: Config, flipperFile: Config)
    returns (trackConfig: Config, flipperConfig: Config)
    ensures DistinctKeys(trackConfig) && DistinctKeys(flipperConfig)
    ensures trackConfig == Update(Update([], trackFile), UpdateAll(commonFiles))
    ensures flipperConfig == Update(Update([], flipperFile), UpdateAll(commonFiles))
  {
    var configList: Config := [];
    for i := 0 to |commonFiles|
      invariant configList == UpdateAll(commonFiles[..i])
    {
      assert commonFiles[..i + 1][..i] == commonFiles[..i];
      configList := Update(configList, commonFiles[i]);
    }
    assert commonFiles[..|commonFiles|] == commonFiles;
    trackConfig := Update([], trackFile);
    trackConfig := Update(trackConfig, configList);
    flipperConfig := Update([], flipperFile);
    flipperConfig := Update(flipperConfig, configList);
    UpdateKeepsDistinct([], trackFile);
    UpdateKeepsDistinct(Update([], trackFile), configList);
    UpdateKeepsDistinct([], flipperFile);
    UpdateKeepsDistinct(Update([], flipperFile), configList);
  }
}
