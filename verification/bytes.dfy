/**
 * Fixed-width little-endian byte layouts, as produced and consumed by the
 * struct formats the protocol uses ('<B', '<H', '<I', '<Q' and their signed
 * forms).
 */
module Bytes {

  /** One octet of a frame payload. */
  type byte = x: int | 0 <= x < 256

  /** 256 to the power n: the number of values n bytes can hold. */
  function Pow256(n: nat): (r: nat)
    ensures r > 0
  {
    if n == 0 then 1 else 256 * Pow256(n - 1)
  }

  /** The unsigned value of a little-endian byte sequence. */
  function FromLittleEndian(bs: seq<byte>): (r: nat)
    ensures r < Pow256(|bs|)
  {
    if bs == [] then 0 else bs[0] + 256 * FromLittleEndian(bs[1..])
  }

  /** The w-byte little-endian layout of v, for v below 256^w. */
  function LittleEndian(v: nat, w: nat): (r: seq<byte>)
    requires v < Pow256(w)
    ensures |r| == w
  {
    if w == 0 then [] else [v % 256] + LittleEndian(v / 256, w - 1)
  }

  /** Decoding an encoding gives the value back. */
  lemma {:induction false} DecodeEncode(v: nat, w: nat)
    requires v < Pow256(w)
    ensures FromLittleEndian(LittleEndian(v, w)) == v
  {
    if w > 0 {
      var bs := LittleEndian(v, w);
      DecodeEncode(v / 256, w - 1);
      assert bs[1..] == LittleEndian(v / 256, w - 1);
    }
  }

  /** Encoding a decoded sequence at its own width gives the sequence back. */
  lemma {:induction false} EncodeDecode(bs: seq<byte>)
    ensures LittleEndian(FromLittleEndian(bs), |bs|) == bs
  {
    if bs != [] {
      var v := FromLittleEndian(bs);
      var rest := FromLittleEndian(bs[1..]);
      assert v % 256 == bs[0] && v / 256 == rest;
      EncodeDecode(bs[1..]);
    }
  }

  /** Two layouts of equal width are equal exactly when their values are. */
  lemma LittleEndianInjective(v: nat, u: nat, w: nat)
    requires v < Pow256(w) && u < Pow256(w)
    ensures LittleEndian(v, w) == LittleEndian(u, w) <==> v == u
  {
    if LittleEndian(v, w) == LittleEndian(u, w) {
      DecodeEncode(v, w);
      DecodeEncode(u, w);
    }
  }

  // ---- Two's complement

  /** The range of a signed integer of w bytes. */
  predicate InSignedRange(i: int, w: nat)
  {
    w > 0 && -(Pow256(w) / 2) <= i < Pow256(w) / 2
  }

  /** The unsigned pattern that stores the signed value i in w bytes. */
  function ToTwosComplement(i: int, w: nat): (r: nat)
    requires InSignedRange(i, w)
    ensures r < Pow256(w)
    ensures i >= 0 <==> r < Pow256(w) / 2
  {
    if i < 0 then i + Pow256(w) else i
  }

  /** The signed value that the w-byte unsigned pattern u stands for. */
  function FromTwosComplement(u: nat, w: nat): (r: int)
    requires w > 0 && u < Pow256(w)
    ensures InSignedRange(r, w)
  {
    if u >= Pow256(w) / 2 then u - Pow256(w) else u
  }

  /** Storing a signed value and reading it back gives the value. */
  lemma SignedRoundTrip(i: int, w: nat)
    requires InSignedRange(i, w)
    ensures FromTwosComplement(ToTwosComplement(i, w), w) == i
  {
  }

  /** Reading a pattern as signed and storing it again gives the pattern. */
  lemma PatternRoundTrip(u: nat, w: nat)
    requires w > 0 && u < Pow256(w)
    ensures ToTwosComplement(FromTwosComplement(u, w), w) == u
  {
  }

  // ---- Decimal text, as Python's str() writes a non-negative int

  /** The digit character for d. */
  function DigitChar(d: nat): (c: char)
    requires d < 10
    ensures '0' <= c <= '9'
  {
    ['0', '1', '2', '3', '4', '5', '6', '7', '8', '9'][d]
  }

  /** The decimal text of n, without leading zeros. */
  function Decimal(n: nat): (s: string)
    ensures |s| > 0
    ensures forall k :: 0 <= k < |s| ==> '0' <= s[k] <= '9'
  {
    if n < 10 then [DigitChar(n)] else Decimal(n / 10) + [DigitChar(n % 10)]
  }

  /** The value of a string of decimal digits. */
  function ParseDecimal(s: string): nat
    requires forall k :: 0 <= k < |s| ==> '0' <= s[k] <= '9'
  {
    if s == [] then 0
    else 10 * ParseDecimal(s[..|s| - 1]) + (s[|s| - 1] as int - '0' as int)
  }

  /** Parsing the decimal text of n gives n. */
  lemma {:induction false} ParseDecimalOfDecimal(n: nat)
    ensures ParseDecimal(Decimal(n)) == n
  {
    var s := Decimal(n);
    if n >= 10 {
      ParseDecimalOfDecimal(n / 10);
      assert s[..|s| - 1] == Decimal(n / 10);
    }
  }

  /** Different numbers have different decimal texts. */
  lemma DecimalInjective(n: nat, m: nat)
    ensures Decimal(n) == Decimal(m) <==> n == m
  {
    if Decimal(n) == Decimal(m) {
      ParseDecimalOfDecimal(n);
      ParseDecimalOfDecimal(m);
    }
  }
}
