/** Varying-length fields, inline LOBs, and the integers of 2, 4 and 8 bytes. */
module Varying {
  import opened Wrappers
  import opened Bytes

  /** How long the length prefix is: two bytes, or four for a LOB. */
  datatype Kind = VarData | LobData

  function PrefixLength(k: Kind): nat {
    if k.VarData? then 2 else 4
  }

  /** The prefix for this many units; a number too large for it is cut off. */
  function Prefix(k: Kind, units: nat): (b: seq<byte>)
    ensures |b| == PrefixLength(k)
  {
    if k.VarData? then U16(Cut16(units)) else U32(Cut32(units))
  }

  function UnitsOf(k: Kind, b: seq<byte>): nat
    requires |b| >= PrefixLength(k)
  {
    if k.VarData? then Get16(b[0..2]) else Get32(b[0..4])
  }

  function UnitSize(doubleByte: bool): nat {
    if doubleByte then 2 else 1
  }

  /** varData and lobData: the data of a field. */
  function DataOf(k: Kind, b: seq<byte>, doubleByte: bool): Option<seq<byte>> {
    if |b| < PrefixLength(k) then None
    else
      var n := UnitsOf(k, b) * UnitSize(doubleByte);
      if PrefixLength(k) + n > |b| then None else Some(b[PrefixLength(k)..PrefixLength(k) + n])
  }

  /** A field of a given length that holds this data, with zeros after it; none if there is no room. */
  function Field(k: Kind, data: seq<byte>, doubleByte: bool, length: nat): (b: Option<seq<byte>>)
    ensures b.Some? ==> |b.value| == length
  {
    if PrefixLength(k) + |data| > length then None
    else Some(Prefix(k, |data| / UnitSize(doubleByte)) + data + Zeros(length - PrefixLength(k) - |data|))
  }

  /** The varying-length branches of encodeValue, in the field's own buffer. */
  method Encode(out: array<byte>, k: Kind, data: seq<byte>, doubleByte: bool) returns (ok: bool)
    requires out[..] == Zeros(out.Length)
    modifies out
    ensures ok <==> Field(k, data, doubleByte, out.Length).Some?
    ensures out[..] == if ok then Field(k, data, doubleByte, out.Length).value else old(out[..])
  {
    hide Prefix;
    if PrefixLength(k) + |data| > out.Length {
      return false;
    }
    var units := |data|;
    if doubleByte {
      units := units / 2;
    }
    FillField(out, Prefix(k, units), data);
    return true;
  }

  method FillField(out: array<byte>, prefix: seq<byte>, data: seq<byte>)
    requires out[..] == Zeros(out.Length) && |prefix| + |data| <= out.Length
    modifies out
    ensures out[..] == prefix + data + Zeros(out.Length - |prefix| - |data|)
  {
    assert out[..] == [] + Zeros(out.Length);
    Fill(out, 0, [], prefix);
    assert [] + prefix == prefix;
    Fill(out, |prefix|, prefix, data);
  }

  predicate UnitsFit(k: Kind, units: nat) {
    units < if k.VarData? then 0x1_0000 else 0x1_0000_0000
  }

  lemma PrefixReads(k: Kind, units: nat, rest: seq<byte>)
    ensures var read := UnitsOf(k, Prefix(k, units) + rest);
      if UnitsFit(k, units) then read == units else read < units
  {
    var b := Prefix(k, units) + rest;
    if k.VarData? {
      assert b[0..2] == U16(Cut16(units));
      GetU16(Cut16(units));
    } else {
      assert b[0..4] == U32(Cut32(units));
      GetU32(Cut32(units));
    }
  }

  /**
   * Data that is accepted comes back whole exactly if its length fits the
   * prefix and, in a double-byte field, is even. An odd last byte is dropped
   * without an error, though values are meant never to be truncated.
   */
  lemma VaryingRoundTrip(k: Kind, data: seq<byte>, doubleByte: bool, length: nat)
    requires Field(k, data, doubleByte, length).Some?
    ensures DataOf(k, Field(k, data, doubleByte, length).value, doubleByte) == Some(data)
            <==> UnitsFit(k, |data| / UnitSize(doubleByte)) && (doubleByte ==> |data| % 2 == 0)
  {
    hide Prefix, UnitsOf;
    var units := |data| / UnitSize(doubleByte);
    var rest := data + Zeros(length - PrefixLength(k) - |data|);
    var b := Field(k, data, doubleByte, length).value;
    assert b == Prefix(k, units) + rest;
    PrefixReads(k, units, rest);
    var n := UnitsOf(k, b) * UnitSize(doubleByte);
    assert n <= |data|;
    assert b[PrefixLength(k)..PrefixLength(k) + n] == rest[..n] == data[..n];
    assert n == |data| ==> data[..n] == data;
  }

  // ----- Integers -----

  /** The bytes of an integer, the least significant last; what does not fit is cut off. */
  function Big(n: int, size: nat): (b: seq<byte>)
    ensures |b| == size
    decreases size
  {
    if size == 0 then [] else Big(n / 0x100, size - 1) + [n % 0x100]
  }

  function Get(b: seq<byte>): nat {
    if b == [] then 0 else Get(b[..|b| - 1]) * 0x100 + b[|b| - 1] as int
  }

  function Range(size: nat): (r: nat)
    ensures r >= 1
  {
    if size == 0 then 1 else 0x100 * Range(size - 1)
  }

  /** The signed reading of the bytes. */
  function SignedOf(b: seq<byte>): int {
    if 2 * Get(b) < Range(|b|) then Get(b) else Get(b) - Range(|b|)
  }

  predicate IsIntegerSize(n: nat) {
    n == 2 || n == 4 || n == 8
  }

  predicate InRange(n: int, size: nat) {
    0 - Range(size) <= 2 * n < Range(size)
  }

  type i64 = n: int | -0x8000_0000_0000_0000 <= n < 0x8000_0000_0000_0000

  /** The integer branch of encodeValue, for a field without a scale. */
  function EncodeInteger(n: i64, length: nat): Option<seq<byte>> {
    if !IsIntegerSize(length) then None
    else if length == 2 && !(-0x8000 <= n < 0x8000) then None
    else if length == 4 && !(-0x8000_0000 <= n < 0x8000_0000) then None
    else Some(Big(n, length))
  }

  /** The integer branch of decodeValue, for a field without a scale. */
  function DecodeInteger(b: seq<byte>, length: nat): Option<int> {
    if |b| != length || !IsIntegerSize(|b|) then None else Some(SignedOf(b))
  }

  lemma {:induction false} GetBig(n: int, size: nat)
    ensures 0 <= Get(Big(n, size)) < Range(size)
    ensures exists k: int :: n == Get(Big(n, size)) + Range(size) * k
    decreases size
  {
    if size > 0 {
      GetBig(n / 0x100, size - 1);
      var low := Big(n / 0x100, size - 1);
      assert Big(n, size)[..size - 1] == low;
      var k: int :| n / 0x100 == Get(low) + Range(size - 1) * k;
      Widen(n, Get(low), Range(size - 1), k);
      assert n == Get(Big(n, size)) + Range(size) * k;
    } else {
      assert n == Get([]) + Range(0) * n;
    }
  }

  lemma Widen(n: int, g: nat, r: nat, k: int)
    requires n / 0x100 == g + r * k
    ensures n == g * 0x100 + n % 0x100 + 0x100 * r * k
  {
  }

  lemma OnlyMultiple(n: int, g: int, r: nat, k: int)
    requires n == g + r * k && 0 <= g < r && 0 - r <= 2 * n < r
    ensures n == if 2 * g < r then g else g - r
  {
    Multiples(r, k);
  }

  lemma Multiples(r: nat, k: int)
    ensures k >= 1 ==> r * k >= r
    ensures k <= -2 ==> r * k <= -2 * r
    ensures k == -1 ==> r * k == 0 - r
  {
    if k >= 1 {
      assert r * k == r + r * (k - 1);
    } else if k <= -2 {
      assert r * k == -2 * r + r * (k + 2);
    }
  }

  lemma Ranges()
    ensures Range(2) == 0x1_0000 && Range(4) == 0x1_0000_0000 && Range(8) == 0x1_0000_0000_0000_0000
  {
    assert Range(3) == 0x100_0000 && Range(5) == 0x100_0000_0000 && Range(6) == 0x1_0000_0000_0000;
  }

  /** An integer is accepted exactly if the column can hold it, and then comes back. */
  lemma IntegerRoundTrip(n: i64, length: nat)
    ensures EncodeInteger(n, length).Some? <==> IsIntegerSize(length) && InRange(n, length)
    ensures EncodeInteger(n, length).Some? ==> DecodeInteger(EncodeInteger(n, length).value, length) == Some(n)
  {
    hide Big, Get, Range;
    Ranges();
    if IsIntegerSize(length) && InRange(n, length) {
      GetBig(n, length);
      var k: int :| n == Get(Big(n, length)) + Range(length) * k;
      OnlyMultiple(n, Get(Big(n, length)), Range(length), k);
    }
  }

  // ----- In bytes -----

  /** A field: how many units its data has, in two bytes, or four for a LOB; the data; zeros. */
  lemma FieldBytes(k: Kind, data: seq<byte>, doubleByte: bool, length: nat)
    requires Field(k, data, doubleByte, length).Some?
    ensures var b := Field(k, data, doubleByte, length).value;
      var units := if doubleByte then |data| / 2 else |data|;
      var p := if k.VarData? then 2 else 4;
      && |b| == length && p + |data| <= length
      && (units < (if k.VarData? then 0x1_0000 else 0x1_0000_0000) ==> Spelt(b, 0, p) == units)
      && b[p..p + |data|] == data && forall i :: p + |data| <= i < length ==> b[i] == 0
  {
    hide Prefix, Spelt;
    var b := Field(k, data, doubleByte, length).value;
    var units := if doubleByte then |data| / 2 else |data|;
    PrefixBytes(k, units, b);
  }

  lemma PrefixBytes(k: Kind, units: nat, b: seq<byte>)
    requires Prefix(k, units) <= b
    ensures UnitsFit(k, units) ==> Spelt(b, 0, PrefixLength(k)) == units
  {
    hide U16, U32, Spelt;
    if k.VarData? {
      assert b[0..0 + 2] == U16(Cut16(units));
      SpeltPair(b, 0, Cut16(units));
    } else {
      assert b[0..0 + 4] == U32(Cut32(units));
      SpeltFour(b, 0, Cut32(units));
    }
  }

  /** An integer field: the number its bytes spell, less 2^(8 size) if its first bit is set. */
  lemma IntegerBytes(b: seq<byte>)
    requires IsIntegerSize(|b|)
    ensures var n := Spelt(b, 0, |b|);
      DecodeInteger(b, |b|) == Some(
        if |b| == 2 then if n < 0x8000 then n else n - 0x1_0000
        else if |b| == 4 then if n < 0x8000_0000 then n else n - 0x1_0000_0000
        else if n < 0x8000_0000_0000_0000 then n else n - 0x1_0000_0000_0000_0000)
  {
    hide Get, Spelt, Range;
    Ranges();
    GetIsSpelt(b, |b|);
    assert b[..|b|] == b;
  }

  lemma {:induction false} GetIsSpelt(b: seq<byte>, n: nat)
    requires n <= |b|
    ensures Get(b[..n]) == Spelt(b, 0, n)
  {
    if n > 0 {
      assert b[..n][..n - 1] == b[..n - 1];
      GetIsSpelt(b, n - 1);
    }
  }
}
