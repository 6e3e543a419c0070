/**
 * Decoding of the 32-bit axis error word carried by every heartbeat into
 * human-readable text: one line per set bit that the fixed table names,
 * in table order, joined by newlines, or "No error." when none is named.
 */
module ErrorCodes {

  /** The error conditions the table names. */
  datatype ErrorName =
    | INITIALIZING
    | SYSTEM_LEVEL
    | TIMING_ERROR
    | MISSING_ESTIMATE
    | BAD_CONFIG
    | DRV_FAULT
    | MISSING_INPUT
    | DC_BUS_OVER_VOLTAGE
    | DC_BUS_UNDER_VOLTAGE
    | DC_BUS_OVER_CURRENT
    | DC_BUS_OVER_REGEN_CURRENT
    | CURRENT_LIMIT_VIOLATION
    | MOTOR_OVER_TEMP
    | INVERTER_OVER_TEMP
    | VELOCITY_LIMIT_VIOLATION
    | POSITION_LIMIT_VIOLATION
    | WATCHDOG_TIMER_EXPIRED
    | ESTOP_REQUESTED
    | SPINOUT_DETECTED
    | BRAKE_RESISTOR_DISARMED
    | THERMISTOR_DISCONNECTED
    | CALIBRATION_ERROR

  /** The name the description of each error condition opens with. */
  function Label(n: ErrorName): string
  {
    match n
    case INITIALIZING => "INITIALIZING"
    case SYSTEM_LEVEL => "SYSTEM_LEVEL"
    case TIMING_ERROR => "TIMING_ERROR"
    case MISSING_ESTIMATE => "MISSING_ESTIMATE"
    case BAD_CONFIG => "BAD_CONFIG"
    case DRV_FAULT => "DRV_FAULT"
    case MISSING_INPUT => "MISSING_INPUT"
    case DC_BUS_OVER_VOLTAGE => "DC_BUS_OVER_VOLTAGE"
    case DC_BUS_UNDER_VOLTAGE => "DC_BUS_UNDER_VOLTAGE"
    case DC_BUS_OVER_CURRENT => "DC_BUS_OVER_CURRENT"
    case DC_BUS_OVER_REGEN_CURRENT => "DC_BUS_OVER_REGEN_CURRENT"
    case CURRENT_LIMIT_VIOLATION => "CURRENT_LIMIT_VIOLATION"
    case MOTOR_OVER_TEMP => "MOTOR_OVER_TEMP"
    case INVERTER_OVER_TEMP => "INVERTER_OVER_TEMP"
    case VELOCITY_LIMIT_VIOLATION => "VELOCITY_LIMIT_VIOLATION"
    case POSITION_LIMIT_VIOLATION => "POSITION_LIMIT_VIOLATION"
    case WATCHDOG_TIMER_EXPIRED => "WATCHDOG_TIMER_EXPIRED"
    case ESTOP_REQUESTED => "ESTOP_REQUESTED"
    case SPINOUT_DETECTED => "SPINOUT_DETECTED"
    case BRAKE_RESISTOR_DISARMED => "BRAKE_RESISTOR_DISARMED"
    case THERMISTOR_DISCONNECTED => "THERMISTOR_DISCONNECTED"
    case CALIBRATION_ERROR => "CALIBRATION_ERROR"
  }

  /** What each error condition means. */
  function Detail(n: ErrorName): string
  {
    match n
    case INITIALIZING => "The system is initializing or reconfiguring."
    case SYSTEM_LEVEL => "Unexpected system error such as memory corruption, stack overflow, frozen thread, assert fail, etc."
    case TIMING_ERROR => "An internal hard timing requirement was violated. Likely due to system overload."
    case MISSING_ESTIMATE => "The position/velocity/phase estimate was invalid."
    case BAD_CONFIG => "The ODrive configuration is invalid or incomplete."
    case DRV_FAULT => "The gate driver chip reported an error."
    case MISSING_INPUT => "No value was provided for input_pos, input_vel, or input_torque."
    case DC_BUS_OVER_VOLTAGE => "The DC voltage exceeded the configured overvoltage trip level."
    case DC_BUS_UNDER_VOLTAGE => "The DC voltage fell below the configured undervoltage trip level."
    case DC_BUS_OVER_CURRENT => "Too much DC current was pulled."
    case DC_BUS_OVER_REGEN_CURRENT => "Too much DC current was regenerated."
    case CURRENT_LIMIT_VIOLATION => "The motor current exceeded the specified hard max current."
    case MOTOR_OVER_TEMP => "The motor temperature exceeded the specified upper limit."
    case INVERTER_OVER_TEMP => "The inverter temperature exceeded the specified upper limit."
    case VELOCITY_LIMIT_VIOLATION => "The velocity exceeds the velocity limit."
    case POSITION_LIMIT_VIOLATION => "The position exceeded the position limit."
    case WATCHDOG_TIMER_EXPIRED => "The axis watchdog timer expired."
    case ESTOP_REQUESTED => "An emergency stop was requested."
    case SPINOUT_DETECTED => "A spinout situation was detected."
    case BRAKE_RESISTOR_DISARMED => "The brake resistor was disarmed."
    case THERMISTOR_DISCONNECTED => "The motor thermistor is disconnected."
    case CALIBRATION_ERROR => "A calibration procedure failed."
  }

  /** The description printed for each error condition: its name, a dash, and its meaning. */
  function Text(n: ErrorName): string
  {
    Label(n) + " - " + Detail(n)
  }

  /** One table row: a single-bit error code and the condition it stands for. */
  datatype ErrorCode = ErrorCode(code: bv32, name: ErrorName)

  /** The table, in the order the decoder walks it. */
  const ERROR_CODES: seq<ErrorCode> := [
    ErrorCode(1, INITIALIZING),
    ErrorCode(2, SYSTEM_LEVEL),
    ErrorCode(4, TIMING_ERROR),
    ErrorCode(8, MISSING_ESTIMATE),
    ErrorCode(16, BAD_CONFIG),
    ErrorCode(32, DRV_FAULT),
    ErrorCode(64, MISSING_INPUT),
    ErrorCode(256, DC_BUS_OVER_VOLTAGE),
    ErrorCode(512, DC_BUS_UNDER_VOLTAGE),
    ErrorCode(1024, DC_BUS_OVER_CURRENT),
    ErrorCode(2048, DC_BUS_OVER_REGEN_CURRENT),
    ErrorCode(4096, CURRENT_LIMIT_VIOLATION),
    ErrorCode(8192, MOTOR_OVER_TEMP),
    ErrorCode(16384, INVERTER_OVER_TEMP),
    ErrorCode(32768, VELOCITY_LIMIT_VIOLATION),
    ErrorCode(65536, POSITION_LIMIT_VIOLATION),
    ErrorCode(16777216, WATCHDOG_TIMER_EXPIRED),
    ErrorCode(33554432, ESTOP_REQUESTED),
    ErrorCode(67108864, SPINOUT_DETECTED),
    ErrorCode(134217728, BRAKE_RESISTOR_DISARMED),
    ErrorCode(268435456, THERMISTOR_DISCONNECTED),
    ErrorCode(1073741824, CALIBRATION_ERROR)
  ]

  /** The text returned when no table bit is set. */
  const NO_ERROR: string := "No error."

  // Bit-vector vocabulary. Each operation sits in its own small function so
  // that the inductive proofs below never see raw bit-vector terms.

  /** The test the decoder applies: does e share a bit with code? */
  predicate Hit(e: bv32, code: bv32) { e & code != 0 }

  function And(a: bv32, b: bv32): bv32 { a & b }

  function Or(a: bv32, b: bv32): bv32 { a | b }

  function Half(x: bv32): bv32 { x >> 1 }

  function LowBit(x: bv32): nat { if x & 1 == 1 then 1 else 0 }

  predicate IsPowerOfTwo(c: bv32) { c != 0 && c & (c - 1) == 0 }

  /** Number of set bits among the lowest n bits of x. */
  function BitsSet(x: bv32, n: nat): nat
  {
    if n == 0 then 0 else LowBit(x) + BitsSet(Half(x), n - 1)
  }

  /** Number of set bits of x. */
  function PopCount(x: bv32): nat
  {
    BitsSet(x, 32)
  }

  // ---- Decoding against a table

  /** Every code of t is a single bit. */
  predicate SingleBits(t: seq<ErrorCode>)
  {
    forall j :: 0 <= j < |t| ==> IsPowerOfTwo(t[j].code)
  }

  /** The codes of t strictly ascend. */
  predicate Ascending(t: seq<ErrorCode>)
  {
    forall j :: 0 < j < |t| ==> t[j - 1].code < t[j].code
  }

  /** Every code is a single bit, and the codes strictly ascend. */
  predicate WellFormed(t: seq<ErrorCode>)
  {
    SingleBits(t) && Ascending(t)
  }

  /** The OR of the codes of the first n entries of t. */
  function MaskOf(t: seq<ErrorCode>, n: nat): bv32
    requires n <= |t|
  {
    if n == 0 then 0 else Or(MaskOf(t, n - 1), t[n - 1].code)
  }

  /**
   * The indices of the first n entries of t whose code shares a bit with e:
   * exactly those entries, each once, in table order.
   */
  function Picked(e: bv32, t: seq<ErrorCode>, n: nat): (r: seq<nat>)
    requires n <= |t|
    ensures forall k :: 0 <= k < |r| ==> r[k] < n
  {
    if n == 0 then []
    else Picked(e, t, n - 1) + (if Hit(e, t[n - 1].code) then [n - 1] else [])
  }

  /** Picked lists exactly the entries that e hits, each once, in table order. */
  lemma {:induction false} PickedSpec(e: bv32, t: seq<ErrorCode>, n: nat)
    requires n <= |t|
    ensures forall k1, k2 :: 0 <= k1 < k2 < |Picked(e, t, n)| ==> Picked(e, t, n)[k1] < Picked(e, t, n)[k2]
    ensures forall j :: 0 <= j < n ==> (j in Picked(e, t, n) <==> Hit(e, t[j].code))
  {
    if n > 0 {
      PickedSpec(e, t, n - 1);
    }
  }

  /** The descriptions of the given entries of t, in the given order. */
  function Texts(t: seq<ErrorCode>, p: seq<nat>): (r: seq<string>)
    requires forall k :: 0 <= k < |p| ==> p[k] < |t|
    ensures |r| == |p|
    ensures forall k :: 0 <= k < |p| ==> r[k] == Text(t[p[k]].name)
  {
    seq(|p|, k requires 0 <= k < |p| => Text(t[p[k]].name))
  }

  /** Python's "\n".join(lines). */
  function JoinLines(lines: seq<string>): string
  {
    if |lines| == 0 then ""
    else if |lines| == 1 then lines[0]
    else JoinLines(lines[..|lines| - 1]) + "\n" + lines[|lines| - 1]
  }

  // ---- The decoder

  /** Every bit that some table entry names. */
  const KNOWN_MASK: bv32 := MaskOf(ERROR_CODES, |ERROR_CODES|)

  /** The table entries the decoder selects for error word e. */
  function Selected(e: bv32): seq<nat>
  {
    Picked(e, ERROR_CODES, |ERROR_CODES|)
  }

  /** The lines the decoder collects for error word e. */
  function Lines(e: bv32): seq<string>
  {
    Texts(ERROR_CODES, Selected(e))
  }

  /** What the decoder returns for error word e. */
  function Describe(e: bv32): string
  {
    var lines := Lines(e);
    if lines != [] then JoinLines(lines) else NO_ERROR
  }

  /**
   * The decoder: walks the table in order, collecting the description of
   * every entry whose code shares a bit with the error word.
   */
  method GetErrorDescription(errorCode: bv32) returns (r: string)
    ensures r == Describe(errorCode)
  {
    var description: seq<string> := [];
    for i := 0 to |ERROR_CODES|
      invariant description == Texts(ERROR_CODES, Picked(errorCode, ERROR_CODES, i))
    {
      TextsStep(errorCode, ERROR_CODES, i);
      if Hit(errorCode, ERROR_CODES[i].code) {
        description := description + [Text(ERROR_CODES[i].name)];
      }
    }
    r := if description != [] then JoinLines(description) else NO_ERROR;
  }

  /** One more entry adds its description exactly when its bit is set. */
  lemma TextsStep(e: bv32, t: seq<ErrorCode>, n: nat)
    requires n < |t|
    ensures Texts(t, Picked(e, t, n + 1))
         == Texts(t, Picked(e, t, n)) + (if Hit(e, t[n].code) then [Text(t[n].name)] else [])
  {
  }

  // ---- Bit-vector facts, one small step each

  lemma AndOverOr(e: bv32, m: bv32, c: bv32)
    ensures And(e, Or(m, c)) == Or(And(e, m), And(e, c))
  {
    assert e & (m | c) == (e & m) | (e & c);
  }

  lemma CoveredIsBelow(a: bv32, m: bv32, c: bv32)
    requires And(a, m) == a && m < c
    ensures a < c
  {
    assert a & m == a;
  }

  lemma AndZero(e: bv32)
    ensures And(e, 0) == 0
  {
    assert e & 0 == 0;
  }

  lemma HitIffAnd(e: bv32, c: bv32)
    ensures Hit(e, c) <==> And(e, c) != 0
  {
    assert e & c != 0 <==> e & c != 0;
  }

  lemma OrIsZero(a: bv32, b: bv32)
    ensures Or(a, b) == 0 <==> a == 0 && b == 0
  {
    assert a | b == 0 <==> a == 0 && b == 0;
  }

  lemma AndKeepsDisjoint(e: bv32, m: bv32, c: bv32)
    requires And(m, c) == 0
    ensures And(And(e, m), And(e, c)) == 0
  {
    assert (e & m) & (e & c) == 0;
  }

  lemma AndWithPowerOfTwo(e: bv32, c: bv32)
    requires IsPowerOfTwo(c)
    ensures And(e, c) == 0 || And(e, c) == c
  {
    assert e & c == 0 || e & c == c;
  }

  lemma HitUnderMask(e: bv32, k: bv32, c: bv32)
    requires And(c, k) == c
    ensures Hit(And(e, k), c) <==> Hit(e, c)
  {
    assert (e & k) & c == e & (k & c);
    assert k & c == c & k;
  }

  lemma CoveredByOr(c: bv32, m: bv32, d: bv32)
    requires And(c, m) == c
    ensures And(c, Or(m, d)) == c
  {
    assert c & (m | d) == c;
  }

  lemma OrCoversRight(m: bv32, d: bv32)
    ensures And(d, Or(m, d)) == d
  {
    assert d & (m | d) == d;
  }

  lemma OrBelowNextPower(x: bv32, c: bv32, d: bv32)
    requires IsPowerOfTwo(c) && IsPowerOfTwo(d) && x < c < d
    ensures Or(x, c) < d
  {
    assert x | c < d;
  }

  lemma BelowPowerIsDisjoint(x: bv32, c: bv32)
    requires IsPowerOfTwo(c) && x < c
    ensures And(x, c) == 0
  {
    assert x & c == 0;
  }

  lemma LowBitOfDisjoint(a: bv32, b: bv32)
    requires And(a, b) == 0
    ensures LowBit(Or(a, b)) == LowBit(a) + LowBit(b)
  {
    assert (a | b) & 1 == 1 <==> a & 1 == 1 || b & 1 == 1;
    assert !(a & 1 == 1 && b & 1 == 1);
  }

  lemma HalfOfDisjoint(a: bv32, b: bv32)
    requires And(a, b) == 0
    ensures Half(Or(a, b)) == Or(Half(a), Half(b)) && And(Half(a), Half(b)) == 0
  {
    assert (a | b) >> 1 == (a >> 1) | (b >> 1) && (a >> 1) & (b >> 1) == 0;
  }

  /** x has no set bit at position n or above. */
  predicate FitsIn(x: bv32, n: bv8)
    requires n <= 32
  {
    x >> n == 0
  }

  lemma HalfOfPowerOfTwo(c: bv32)
    requires IsPowerOfTwo(c) && c != 1
    ensures LowBit(c) == 0 && IsPowerOfTwo(Half(c))
  {
  }

  lemma HalfFits(c: bv32, n: bv8)
    requires 1 <= n <= 32 && FitsIn(c, n)
    ensures FitsIn(Half(c), n - 1)
  {
    assert (c >> 1) >> (n - 1) == c >> n;
  }

  // ---- Population count

  lemma {:induction false} BitsSetOfZero(n: nat)
    ensures BitsSet(0, n) == 0
  {
    if n > 0 {
      assert Half(0) == 0;
      BitsSetOfZero(n - 1);
    }
  }

  /** Counting the bits of two disjoint words adds up. */
  lemma {:induction false} BitsSetOfDisjoint(a: bv32, b: bv32, n: nat)
    requires And(a, b) == 0
    ensures BitsSet(Or(a, b), n) == BitsSet(a, n) + BitsSet(b, n)
    decreases n
  {
    if n > 0 {
      LowBitOfDisjoint(a, b);
      HalfOfDisjoint(a, b);
      BitsSetOfDisjoint(Half(a), Half(b), n - 1);
    }
  }

  lemma {:induction false} BitsSetOfPowerOfTwo(c: bv32, n: bv8)
    requires 1 <= n <= 32 && IsPowerOfTwo(c) && FitsIn(c, n)
    ensures BitsSet(c, n as nat) == 1
    decreases n
  {
    if c == 1 {
      assert Half(c) == 0 && LowBit(c) == 1;
      BitsSetOfZero(n as nat - 1);
    } else {
      HalfOfPowerOfTwo(c);
      HalfFits(c, n);
      BitsSetOfPowerOfTwo(Half(c), n - 1);
    }
  }

  /** A single-bit word has exactly one bit set. */
  lemma PopCountOfPowerOfTwo(c: bv32)
    requires IsPowerOfTwo(c)
    ensures PopCount(c) == 1
  {
    assert FitsIn(c, 32);
    BitsSetOfPowerOfTwo(c, 32);
  }

  // ---- Table facts

  /** The mask of the first n entries contains each of their codes. */
  lemma {:induction false} MaskCovers(t: seq<ErrorCode>, n: nat, j: nat)
    requires j < n <= |t|
    ensures And(t[j].code, MaskOf(t, n)) == t[j].code
  {
    if j < n - 1 {
      MaskCovers(t, n - 1, j);
      CoveredByOr(t[j].code, MaskOf(t, n - 1), t[n - 1].code);
    } else {
      OrCoversRight(MaskOf(t, n - 1), t[n - 1].code);
    }
  }

  /** The mask of the first n entries lies below, and is disjoint from, the code of entry n. */
  lemma {:induction false} MaskBelowNext(t: seq<ErrorCode>, n: nat)
    requires WellFormed(t) && n < |t|
    ensures MaskOf(t, n) < t[n].code
    ensures And(MaskOf(t, n), t[n].code) == 0
  {
    if n > 0 {
      MaskBelowNext(t, n - 1);
      OrBelowNextPower(MaskOf(t, n - 1), t[n - 1].code, t[n].code);
    }
    BelowPowerIsDisjoint(MaskOf(t, n), t[n].code);
  }

  /** Codes of a well-formed table strictly ascend, so they are pairwise distinct. */
  lemma CodesAscend(t: seq<ErrorCode>, i: nat, j: nat)
    requires WellFormed(t) && i < j < |t|
    ensures t[i].code < t[j].code
  {
    MaskCovers(t, j, i);
    MaskBelowNext(t, j);
    CoveredIsBelow(t[i].code, MaskOf(t, j), t[j].code);
  }

  /** Entries from i on are single bits, each above its predecessor. */
  predicate AscendingFrom(t: seq<ErrorCode>, i: nat)
    decreases |t| - i
  {
    i >= |t| ||
    (IsPowerOfTwo(t[i].code) && (i == 0 || t[i - 1].code < t[i].code) && AscendingFrom(t, i + 1))
  }

  lemma {:induction false} AscendingFromIsWellFormed(t: seq<ErrorCode>, i: nat)
    requires AscendingFrom(t, i)
    ensures forall j :: i <= j < |t| ==> IsPowerOfTwo(t[j].code)
    ensures forall j :: i < j < |t| ==> t[j - 1].code < t[j].code
    decreases |t| - i
  {
    if i < |t| {
      AscendingFromIsWellFormed(t, i + 1);
    }
  }

  /** The second half of the table ascends. */
  lemma TableTailAscends()
    ensures AscendingFrom(ERROR_CODES, 11)
  {
    assert AscendingFrom(ERROR_CODES, 22);
    assert AscendingFrom(ERROR_CODES, 21);
    assert AscendingFrom(ERROR_CODES, 20);
    assert AscendingFrom(ERROR_CODES, 19);
    assert AscendingFrom(ERROR_CODES, 18);
    assert AscendingFrom(ERROR_CODES, 17);
    assert AscendingFrom(ERROR_CODES, 16);
    assert AscendingFrom(ERROR_CODES, 15);
    assert AscendingFrom(ERROR_CODES, 14);
    assert AscendingFrom(ERROR_CODES, 13);
    assert AscendingFrom(ERROR_CODES, 12);
    assert AscendingFrom(ERROR_CODES, 11);
  }

  /** The table is well formed. */
  lemma TableWellFormed()
    ensures WellFormed(ERROR_CODES)
  {
    TableTailAscends();
    assert AscendingFrom(ERROR_CODES, 10);
    assert AscendingFrom(ERROR_CODES, 9);
    assert AscendingFrom(ERROR_CODES, 8);
    assert AscendingFrom(ERROR_CODES, 7);
    assert AscendingFrom(ERROR_CODES, 6);
    assert AscendingFrom(ERROR_CODES, 5);
    assert AscendingFrom(ERROR_CODES, 4);
    assert AscendingFrom(ERROR_CODES, 3);
    assert AscendingFrom(ERROR_CODES, 2);
    assert AscendingFrom(ERROR_CODES, 1);
    assert AscendingFrom(ERROR_CODES, 0);
    AscendingFromIsWellFormed(ERROR_CODES, 0);
  }

  // ---- Properties of decoding against any well-formed table

  /** Nothing is picked exactly when e shares no bit with the mask of the entries. */
  lemma {:induction false} NothingPickedIff(e: bv32, t: seq<ErrorCode>, n: nat)
    requires n <= |t|
    ensures Picked(e, t, n) == [] <==> And(e, MaskOf(t, n)) == 0
  {
    if n == 0 {
      AndZero(e);
    } else {
      NothingPickedIff(e, t, n - 1);
      HitIffAnd(e, t[n - 1].code);
      AndOverOr(e, MaskOf(t, n - 1), t[n - 1].code);
      OrIsZero(And(e, MaskOf(t, n - 1)), And(e, t[n - 1].code));
    }
  }

  /** Clearing bits that no entry names does not change what is picked. */
  lemma {:induction false} PickedUnderMask(e: bv32, k: bv32, t: seq<ErrorCode>, n: nat)
    requires n <= |t|
    requires forall j :: 0 <= j < n ==> And(t[j].code, k) == t[j].code
    ensures Picked(And(e, k), t, n) == Picked(e, t, n)
  {
    if n > 0 {
      PickedUnderMask(e, k, t, n - 1);
      HitUnderMask(e, k, t[n - 1].code);
    }
  }

  /** Adding a single bit disjoint from the mask adds one to the count exactly when e hits it. */
  lemma CountStep(e: bv32, m: bv32, c: bv32)
    requires IsPowerOfTwo(c) && And(m, c) == 0
    ensures PopCount(And(e, Or(m, c))) == PopCount(And(e, m)) + (if Hit(e, c) then 1 else 0)
  {
    AndOverOr(e, m, c);
    AndKeepsDisjoint(e, m, c);
    BitsSetOfDisjoint(And(e, m), And(e, c), 32);
    AndWithPowerOfTwo(e, c);
    HitIffAnd(e, c);
    if And(e, c) == 0 {
      BitsSetOfZero(32);
    } else {
      PopCountOfPowerOfTwo(c);
    }
  }

  /** One entry is picked per bit of e that the first n entries name. */
  lemma {:induction false} PickedCountsBits(e: bv32, t: seq<ErrorCode>, n: nat)
    requires WellFormed(t) && n <= |t|
    ensures |Picked(e, t, n)| == PopCount(And(e, MaskOf(t, n)))
  {
    if n == 0 {
      AndZero(e);
      BitsSetOfZero(32);
    } else {
      PickedCountsBits(e, t, n - 1);
      MaskBelowNext(t, n - 1);
      CountStep(e, MaskOf(t, n - 1), t[n - 1].code);
    }
  }

  // ---- Properties of the decoder

  /** Every description is longer than "No error.". */
  lemma TextLonger(n: ErrorName)
    ensures |Text(n)| > |NO_ERROR|
  {
    assert |Label(n)| >= 7;
    assert |" - "| == 3 && |NO_ERROR| == 9;
  }

  /** Lines longer than "No error." joined are longer than it too. */
  lemma {:induction false} JoinLinesLonger(lines: seq<string>)
    requires lines != [] && forall k :: 0 <= k < |lines| ==> |lines[k]| > |NO_ERROR|
    ensures |JoinLines(lines)| > |NO_ERROR|
  {
    if |lines| > 1 {
      JoinLinesLonger(lines[..|lines| - 1]);
    }
  }

  /**
   * The decoder returns "No error." exactly when the word sets no bit the
   * table names, and otherwise the selected lines joined.
   */
  lemma DescribeNoErrorIff(e: bv32)
    ensures And(e, KNOWN_MASK) == 0 <==> Lines(e) == []
    ensures Describe(e) == NO_ERROR <==> And(e, KNOWN_MASK) == 0
    ensures And(e, KNOWN_MASK) != 0 ==> Describe(e) == JoinLines(Lines(e))
  {
    NothingPickedIff(e, ERROR_CODES, |ERROR_CODES|);
    var lines := Lines(e);
    if lines != [] {
      forall k | 0 <= k < |lines|
        ensures |lines[k]| > |NO_ERROR|
      {
        TextLonger(ERROR_CODES[Selected(e)[k]].name);
      }
      JoinLinesLonger(lines);
    }
  }

  /** Words that set no named bit, such as 0, bit 7 and bit 31, describe as "No error.". */
  lemma NoErrorWords()
    ensures Describe(0) == NO_ERROR
    ensures Describe(128) == NO_ERROR
    ensures Describe(0x8000_0000) == NO_ERROR
  {
    NothingNamed(0);
    NothingNamed(128);
    NothingNamed(0x8000_0000);
  }

  /** A word that shares no bit with any table code selects nothing. */
  lemma NothingNamed(e: bv32)
    requires forall j :: 0 <= j < |ERROR_CODES| ==> !Hit(e, ERROR_CODES[j].code)
    ensures Describe(e) == NO_ERROR
  {
    PickedSpec(e, ERROR_CODES, |ERROR_CODES|);
  }

  /** Bits that the table does not name have no effect on the text. */
  lemma UnnamedBitsIgnored(e: bv32)
    ensures Describe(e) == Describe(And(e, KNOWN_MASK))
  {
    forall j | 0 <= j < |ERROR_CODES|
      ensures And(ERROR_CODES[j].code, KNOWN_MASK) == ERROR_CODES[j].code
    {
      MaskCovers(ERROR_CODES, |ERROR_CODES|, j);
    }
    PickedUnderMask(e, KNOWN_MASK, ERROR_CODES, |ERROR_CODES|);
  }

  /** The decoder emits one line per named bit of the word. */
  lemma LineCountIsPopCount(e: bv32)
    ensures |Lines(e)| == PopCount(And(e, KNOWN_MASK))
  {
    TableWellFormed();
    PickedCountsBits(e, ERROR_CODES, |ERROR_CODES|);
  }

  /** Picked entries name bits set in e. */
  lemma PickedHit(e: bv32, t: seq<ErrorCode>, n: nat)
    requires n <= |t|
    ensures forall k :: 0 <= k < |Picked(e, t, n)| ==> Hit(e, t[Picked(e, t, n)[k]].code)
  {
    var p := Picked(e, t, n);
    PickedSpec(e, t, n);
    forall k | 0 <= k < |p|
      ensures Hit(e, t[p[k]].code)
    {
      assert p[k] in p;
    }
  }

  /** Ascending indices into a well-formed table name ascending codes. */
  lemma IndicesAscendCodes(t: seq<ErrorCode>, p: seq<nat>)
    requires WellFormed(t)
    requires forall k :: 0 <= k < |p| ==> p[k] < |t|
    requires forall k1, k2 :: 0 <= k1 < k2 < |p| ==> p[k1] < p[k2]
    ensures forall k1, k2 :: 0 <= k1 < k2 < |p| ==> t[p[k1]].code < t[p[k2]].code
  {
    forall k1, k2 | 0 <= k1 < k2 < |p|
      ensures t[p[k1]].code < t[p[k2]].code
    {
      CodesAscend(t, p[k1], p[k2]);
    }
  }

  /** Picked entries come in ascending order of code. */
  lemma PickedAscend(e: bv32, t: seq<ErrorCode>, n: nat)
    requires WellFormed(t) && n <= |t|
    ensures forall k1, k2 :: 0 <= k1 < k2 < |Picked(e, t, n)| ==>
      t[Picked(e, t, n)[k1]].code < t[Picked(e, t, n)[k2]].code
  {
    PickedSpec(e, t, n);
    IndicesAscendCodes(t, Picked(e, t, n));
  }

  /** Each line names a bit set in the word, each such bit once, lowest bit first. */
  lemma LinesFollowCodeOrder(e: bv32)
    ensures forall k :: 0 <= k < |Selected(e)| ==> Hit(e, ERROR_CODES[Selected(e)[k]].code)
    ensures forall k1, k2 :: 0 <= k1 < k2 < |Selected(e)| ==>
      ERROR_CODES[Selected(e)[k1]].code < ERROR_CODES[Selected(e)[k2]].code
  {
    TableWellFormed();
    PickedHit(e, ERROR_CODES, |ERROR_CODES|);
    PickedAscend(e, ERROR_CODES, |ERROR_CODES|);
  }
}
