/** DECIMAL and NUMERIC columns: packed and zoned decimal fields, and their round trips with text. */
module Packed {
  import opened Wrappers
  import opened Bytes
  import opened Digits
  import opened Decimal

  type nibble = n: int | 0 <= n < 0x10

  const NEGATIVE: nibble := 0xD
  const NEGATIVE_TOO: nibble := 0xB
  const POSITIVE: nibble := 0xF

  function Hi(b: byte): nibble {
    b / 0x10
  }

  function Lo(b: byte): nibble {
    b % 0x10
  }

  function Both(hi: nibble, lo: nibble): byte {
    hi * 0x10 + lo
  }

  lemma BothParts(hi: nibble, lo: nibble)
    ensures Hi(Both(hi, lo)) == hi && Lo(Both(hi, lo)) == lo
  {
  }

  lemma PartsBoth(b: byte)
    ensures Both(Hi(b), Lo(b)) == b
  {
  }

  function SignNibble(negative: bool): nibble {
    if negative then NEGATIVE else POSITIVE
  }

  predicate IsNegative(n: nibble) {
    n == NEGATIVE || n == NEGATIVE_TOO
  }

  function Unpack(b: seq<byte>): (ns: seq<nibble>)
    ensures |ns| == 2 * |b|
  {
    if b == [] then [] else [Hi(b[0]), Lo(b[0])] + Unpack(b[1..])
  }

  function Pack(ns: seq<nibble>): (b: seq<byte>)
    requires |ns| % 2 == 0
    ensures 2 * |b| == |ns|
  {
    if ns == [] then [] else [Both(ns[0], ns[1])] + Pack(ns[2..])
  }

  lemma {:induction false} UnpackPack(ns: seq<nibble>)
    requires |ns| % 2 == 0
    ensures Unpack(Pack(ns)) == ns
  {
    hide Hi, Lo, Both;
    if ns != [] {
      BothParts(ns[0], ns[1]);
      assert Pack(ns)[1..] == Pack(ns[2..]);
      UnpackPack(ns[2..]);
      assert ns == [ns[0], ns[1]] + ns[2..];
    }
  }

  lemma {:induction false} PackUnpack(b: seq<byte>)
    ensures Pack(Unpack(b)) == b
  {
    hide Hi, Lo, Both;
    if b != [] {
      PartsBoth(b[0]);
      PackUnpack(b[1..]);
      assert Unpack(b)[2..] == Unpack(b[1..]);
    }
  }

  lemma {:induction false} UnpackAt(b: seq<byte>, i: nat)
    requires i < |b|
    ensures Unpack(b)[2 * i] == Hi(b[i]) && Unpack(b)[2 * i + 1] == Lo(b[i])
  {
    if i > 0 {
      UnpackAt(b[1..], i - 1);
    }
  }

  lemma {:induction false} PackAt(ns: seq<nibble>, i: nat)
    requires |ns| % 2 == 0 && 2 * i < |ns|
    ensures Pack(ns)[i] == Both(ns[2 * i], ns[2 * i + 1])
  {
    if i > 0 {
      PackAt(ns[2..], i - 1);
    }
  }

  lemma {:induction false} UnpackAppend(a: seq<byte>, b: seq<byte>)
    ensures Unpack(a + b) == Unpack(a) + Unpack(b)
  {
    if a == [] {
      assert a + b == b;
    } else {
      assert (a + b)[1..] == a[1..] + b;
      UnpackAppend(a[1..], b);
    }
  }

  /** The last byte of a field holds its last digit and its sign. */
  lemma UnpackLast(b: seq<byte>)
    requires b != []
    ensures Unpack(b) == Unpack(Front(b)) + [Hi(Last(b)), Lo(Last(b))]
    ensures Front(Unpack(b)) == Unpack(Front(b)) + [Hi(Last(b))]
  {
    assert b == Front(b) + [Last(b)];
    UnpackAppend(Front(b), [Last(b)]);
    assert [Last(b)][1..] == [];
  }

  /** The values of a digit string, and the digit string of values. */
  function Values(s: string): (ns: seq<nibble>)
    requires IsDigits(s)
    ensures |ns| == |s| && AllDigits(ns)
    ensures forall i :: 0 <= i < |s| ==> ns[i] == Value(s[i])
  {
    seq(|s|, i requires 0 <= i < |s| => Value(s[i]))
  }

  predicate AllDigits(ns: seq<nibble>) {
    forall i :: 0 <= i < |ns| ==> ns[i] <= 9
  }

  function Text(ns: seq<nibble>): (s: string)
    requires AllDigits(ns)
    ensures |s| == |ns| && IsDigits(s)
    ensures forall i :: 0 <= i < |s| ==> s[i] == DigitFor(ns[i])
  {
    seq(|ns|, i requires 0 <= i < |ns| => DigitFor(ns[i]))
  }

  lemma TextValues(s: string)
    requires IsDigits(s)
    ensures Text(Values(s)) == s
  {
  }

  lemma ValuesText(ns: seq<nibble>)
    requires AllDigits(ns)
    ensures Values(Text(ns)) == ns
  {
  }

  // ----- Packed -----

  /** The digits left-padded to an odd number of them, so that digits and sign fill whole bytes. */
  function Odd(digits: string): (r: string)
    ensures |r| % 2 == 1
  {
    if |digits| % 2 == 0 then "0" + digits else digits
  }

  function Nibbles(digits: string, negative: bool): (ns: seq<nibble>)
    requires IsDigits(digits)
    ensures |ns| == 2 * (|digits| / 2 + 1)
  {
    Values(Odd(digits)) + [SignNibble(negative)]
  }

  function PackedField(digits: string, negative: bool): seq<byte>
    requires IsDigits(digits)
  {
    Pack(Nibbles(digits, negative))
  }

  /** encodePacked, in place. */
  method EncodePacked(out: array<byte>, digits: string, negative: bool) returns (ok: bool)
    requires IsDigits(digits)
    modifies out
    ensures ok <==> out.Length == |digits| / 2 + 1
    ensures out[..] == if ok then PackedField(digits, negative) else old(out[..])
  {
    if out.Length != |digits| / 2 + 1 {
      return false;
    }
    var padded := digits;
    if |digits| % 2 == 0 {
      padded := "0" + digits;
    }
    var nibbles: seq<nibble> := [];
    for i := 0 to |padded|
      invariant nibbles == Values(padded)[..i]
    {
      nibbles := nibbles + [Value(padded[i])];
    }
    nibbles := nibbles + [SignNibble(negative)];
    assert nibbles == Nibbles(digits, negative);
    for i := 0 to out.Length
      invariant out[..i] == Pack(nibbles)[..i]
    {
      out[i] := Both(nibbles[2 * i], nibbles[2 * i + 1]);
      PackAt(nibbles, i);
      assert out[..i + 1] == out[..i] + [out[i]];
    }
    assert out[..] == out[..out.Length];
    return true;
  }

  function Last<T>(s: seq<T>): T
    requires s != []
  {
    s[|s| - 1]
  }

  function Front<T>(s: seq<T>): seq<T>
    requires s != []
  {
    s[..|s| - 1]
  }

  /** A packed field of this precision that holds a number. */
  predicate ValidPacked(b: seq<byte>, precision: nat) {
    |b| == precision / 2 + 1 && AllDigits(Front(Unpack(b)))
  }

  function PackedDigits(b: seq<byte>, precision: nat): (s: string)
    requires ValidPacked(b, precision)
    ensures IsDigits(s) && |s| == 2 * (precision / 2) + 1
  {
    Text(Front(Unpack(b)))
  }

  predicate PackedNegative(b: seq<byte>)
    requires b != []
  {
    IsNegative(Lo(Last(b)))
  }

  function PackedText(b: seq<byte>, precision: nat, scale: nat): Option<string> {
    if !ValidPacked(b, precision) then None
    else Some(FormatDecimal(PackedDigits(b, precision), scale, PackedNegative(b)))
  }

  method DecodePacked(b: seq<byte>, precision: nat, scale: nat) returns (r: Option<string>)
    ensures r == PackedText(b, precision, scale)
  {
    hide Unpack, Hi, Lo, FormatDecimal, IsNegative;
    if |b| != precision / 2 + 1 {
      return None;
    }
    ghost var ns := Unpack(b);
    var digits := "";
    for i := 0 to |b|
      invariant |digits| == if i < |b| then 2 * i else 2 * i - 1
      invariant forall j :: 0 <= j < |digits| ==> ns[j] <= 9 && digits[j] == DigitFor(ns[j])
    {
      var hi, lo := Hi(b[i]), Lo(b[i]);
      UnpackAt(b, i);
      if hi > 9 {
        assert Front(ns)[2 * i] > 9;
        return None;
      }
      digits := digits + [DigitFor(hi)];
      if i < |b| - 1 {
        if lo > 9 {
          assert Front(ns)[2 * i + 1] > 9;
          return None;
        }
        digits := digits + [DigitFor(lo)];
      }
    }
    assert digits == Text(Front(ns));
    var negative := IsNegative(Lo(Last(b)));
    return Some(FormatDecimal(digits, scale, negative));
  }

  // ----- Round trips of packed fields -----

  lemma OddKeepsNumber(digits: string)
    requires IsDigits(digits)
    ensures IsDigits(Odd(digits)) && Number(Odd(digits)) == Number(digits)
  {
    if |digits| % 2 == 0 {
      NumberPadded(1, digits);
      assert Digits.Zeros(1) == "0";
    }
  }

  /** A packed field holds its digits and its sign, and a zero in the pad nibble of an even precision. */
  lemma PackedHolds(digits: string, negative: bool)
    requires IsDigits(digits)
    ensures var b := PackedField(digits, negative);
      && ValidPacked(b, |digits|)
      && PackedDigits(b, |digits|) == Odd(digits)
      && PackedNegative(b) == negative
      && Lo(Last(b)) == SignNibble(negative)
  {
    hide Number, Unpack, Pack, Hi, Lo, Text, Values, AllDigits;
    var ns := Nibbles(digits, negative);
    OddKeepsNumber(digits);
    UnpackPack(ns);
    UnpackLast(Pack(ns));
    assert Front(ns) == Values(Odd(digits));
    TextValues(Odd(digits));
    assert Lo(Last(Pack(ns))) == Last(Unpack(Pack(ns))) == Last(ns);
  }

  /** The one canonical text of a number. */
  ghost predicate IsCanonical(t: string, negative: bool, m: nat, scale: nat) {
    exists whole, frac :: Canonical(t, negative, m, scale, whole, frac)
  }

  /**
   * Text to field to text. Encoding an accepted text and decoding the field
   * gives the canonical text of the number the text spells.
   */
  lemma PackedRoundTrip(s: string, precision: nat, scale: nat)
    requires ScaleToDigits(s, precision, scale).Success?
    ensures var (digits, negative) := ScaleToDigits(s, precision, scale).value;
      && IsDigits(digits)
      && (exists sign ::
            && Representable(s, precision, scale, sign, Number(digits))
            && (negative <==> sign && Number(digits) != 0))
      && var t := PackedText(PackedField(digits, negative), precision, scale);
         t.Some? && IsCanonical(t.value, negative, Number(digits), scale)
  {
    hide ScaleToDigits, Canonical, Representable, PackedField, Number;
    DigitsAreExact(s, precision, scale);
    var (digits, negative) := ScaleToDigits(s, precision, scale).value;
    PackedHolds(digits, negative);
    OddKeepsNumber(digits);
    FormatIsCanonical(Odd(digits), scale, negative);
  }

  /** The pad nibble of an even precision. */
  predicate PadIsZero(b: seq<byte>, precision: nat)
    requires b != []
  {
    precision % 2 == 0 ==> b[0] < 0x10
  }

  /** A field with its sign nibble as this client writes it: D for negative numbers, F for all others. */
  function NormalSign(b: seq<byte>, negative: bool): seq<byte>
    requires b != []
  {
    b[..|b| - 1] + [b[|b| - 1] / 0x10 * 0x10 + if negative then 0xD else 0xF]
  }

  lemma FirstDigitZero(s: string)
    requires IsDigits(s) && s != ""
    ensures Number(s) < Pow10(|s| - 1) <==> s[0] == '0'
    ensures s[0] == '0' ==> Number(s[1..]) == Number(s)
  {
    if s[0] != '0' {
      NumberLeading(s);
    } else {
      assert s == Digits.Zeros(1) + s[1..];
      NumberPadded(1, s[1..]);
      NumberBound(s[1..]);
    }
  }

  /** A decoded text is accepted for its own column exactly when its number has at most `precision` digits. */
  lemma DecodedIsAccepted(digits: string, negative: bool, precision: nat, scale: nat)
    requires IsDigits(digits)
    ensures var t := FormatDecimal(digits, scale, negative);
      var r := ScaleToDigits(t, precision, scale);
      && (r.Success? <==> scale <= precision && Number(digits) < Pow10(precision))
      && (r.Success? ==>
            && IsDigits(r.value.0) && |r.value.0| == precision && Number(r.value.0) == Number(digits)
            && (r.value.1 <==> negative && Number(digits) != 0))
  {
    hide ScaleToDigits, FormatDecimal, Number, Pow10, Spells, Scaled;
    var t, m := FormatDecimal(digits, scale, negative), Number(digits);
    var whole, frac := WholePart(digits, scale), FractionPart(digits, scale);
    FormatIsCanonical(digits, scale, negative);
    CanonicalSpells(t, negative, m, scale, whole, frac, precision);
    AcceptsExactlyTheRepresentable(t, precision, scale);
    if scale <= precision && m < Pow10(precision) {
      RepresentableIsAccepted(t, precision, scale, negative && m != 0, m);
    } else {
      forall sign, m' | Representable(t, precision, scale, sign, m') ensures m' == m {
        CanonicalScales(t, negative, m, scale, whole, frac, precision, sign, m');
      }
    }
  }

  lemma RepresentableWider(t: string, precision: nat, wider: nat, scale: nat, sign: bool, m: nat)
    requires precision <= wider && Representable(t, precision, scale, sign, m)
    ensures Representable(t, wider, scale, sign, m)
  {
    hide Pow10;
    PowMonotone(precision, wider);
  }

  /** A canonical text spells no other number. */
  lemma CanonicalScales(
    t: string, negative: bool, m: nat, scale: nat, whole: string, frac: string, precision: nat, sign: bool,
    m': nat
  )
    requires Canonical(t, negative, m, scale, whole, frac) && Representable(t, precision, scale, sign, m')
    ensures m' == m
  {
    hide Canonical, Representable, Pow10;
    PowAboveAny(m);
    PowMonotone(m, precision + m);
    CanonicalSpells(t, negative, m, scale, whole, frac, precision + m);
    RepresentableWider(t, precision, precision + m, scale, sign, m');
    RepresentableUnique(t, precision + m, scale, sign, m', negative && m != 0, m);
  }

  lemma {:induction false} PowAboveAny(m: nat)
    ensures m < Pow10(m)
  {
    if m > 0 {
      PowAboveAny(m - 1);
    }
  }

  /**
   * Field to text to field. Decoding a valid field and encoding the text again
   * succeeds exactly when the scale is within the precision and the pad nibble
   * is zero; then it gives the same bytes, up to the sign nibble.
   */
  lemma PackedReverse(b: seq<byte>, precision: nat, scale: nat)
    requires ValidPacked(b, precision)
    ensures var t := PackedText(b, precision, scale).value;
      var r := ScaleToDigits(t, precision, scale);
      if scale <= precision && PadIsZero(b, precision) then
        && r.Success? && IsDigits(r.value.0)
        && PackedField(r.value.0, r.value.1)
           == NormalSign(b, PackedNegative(b) && Number(PackedDigits(b, precision)) != 0)
      else
        r.Failure?
  {
    hide ScaleToDigits, Number, Pow10, FormatDecimal;
    var digits := PackedDigits(b, precision);
    DecodedIsAccepted(digits, PackedNegative(b), precision, scale);
    assert digits[0] == DigitFor(Hi(b[0])) by {
      UnpackAt(b, 0);
    }
    if precision % 2 == 1 {
      NumberBound(digits);
    } else {
      FirstDigitZero(digits);
    }
    var r := ScaleToDigits(PackedText(b, precision, scale).value, precision, scale);
    if r.Success? {
      SameOdd(r.value.0, digits);
      Repacked(b, precision, r.value.0, r.value.1);
    }
  }

  /** The digits that come back are the field's digits, without the pad. */
  lemma SameOdd(d: string, digits: string)
    requires IsDigits(d) && IsDigits(digits) && Number(d) == Number(digits) && |digits| == 2 * (|d| / 2) + 1
    ensures Odd(d) == digits
  {
    OddKeepsNumber(d);
    NumberInjective(Odd(d), digits);
  }

  lemma Repacked(b: seq<byte>, precision: nat, d: string, negative: bool)
    requires ValidPacked(b, precision) && IsDigits(d) && Odd(d) == PackedDigits(b, precision)
    ensures PackedField(d, negative) == NormalSign(b, negative)
  {
    assert NormalSign(b, negative) == Front(b) + [Both(Hi(Last(b)), SignNibble(negative))];
    hide Unpack, Pack, Hi, Lo, Both, Number, Text, Values, SignNibble, Odd, AllDigits;
    ValuesText(Front(Unpack(b)));
    OddKeepsNumber(d);
    UnpackLast(b);
    var n := NormalSign(b, negative);
    assert Front(n) == Front(b);
    BothParts(Hi(Last(b)), SignNibble(negative));
    UnpackLast(n);
    assert Nibbles(d, negative) == Unpack(n);
    PackUnpack(n);
  }

  // ----- The bytes of a packed field -----

  /** The k-th half byte. */
  function HalfByte(b: seq<byte>, k: nat): nat
    requires k < 2 * |b|
  {
    if k % 2 == 0 then b[k / 2] / 16 else b[k / 2] % 16
  }

  /** Half byte by half byte: a zero to fill up, the digits, and 13 for a negative number or 15 for any other. */
  lemma PackedBytes(digits: string, negative: bool)
    requires IsDigits(digits)
    ensures var b := PackedField(digits, negative);
      var pad := if |digits| % 2 == 0 then 1 else 0;
      && 2 * |b| == pad + |digits| + 1
      && (forall k: nat | k <= pad + |digits| :: HalfByte(b, k) ==
            if k < pad then 0
            else if k < pad + |digits| then digits[k - pad] as int - '0' as int
            else if negative then 13 else 15)
  {
    hide Number, Unpack, Pack, Nibbles, HalfByte;
    var ns := Nibbles(digits, negative);
    forall k: nat | k < |ns| ensures HalfByte(Pack(ns), k) == ns[k] {
      HalfBytePacked(ns, k);
    }
    forall k: nat | k < |ns| ensures ns[k] == NibbleOf(digits, negative, k) {
      NibblesAre(digits, negative, k);
    }
  }

  function NibbleOf(digits: string, negative: bool, k: nat): nat
    requires IsDigits(digits)
  {
    var pad := if |digits| % 2 == 0 then 1 else 0;
    if k < pad then 0
    else if k < pad + |digits| then digits[k - pad] as int - '0' as int
    else if negative then 13 else 15
  }

  lemma NibblesAre(digits: string, negative: bool, k: nat)
    requires IsDigits(digits) && k < |Nibbles(digits, negative)|
    ensures Nibbles(digits, negative)[k] == NibbleOf(digits, negative, k)
  {
    hide Number;
    OddKeepsNumber(digits);
  }

  lemma HalfBytePacked(ns: seq<nibble>, k: nat)
    requires |ns| % 2 == 0 && k < |ns|
    ensures HalfByte(Pack(ns), k) == ns[k]
  {
    hide Unpack, Pack;
    PackAt(ns, k / 2);
    assert k == 2 * (k / 2) + k % 2;
    BothParts(ns[2 * (k / 2)], ns[2 * (k / 2) + 1]);
  }

  lemma HalfByteUnpacked(b: seq<byte>, k: nat)
    requires k < 2 * |b|
    ensures HalfByte(b, k) == Unpack(b)[k]
  {
    hide Unpack;
    UnpackAt(b, k / 2);
    assert k == 2 * (k / 2) + k % 2;
  }

  /**
   * What a packed field says, half byte by half byte: it has to be as long as
   * its precision asks and hold decimal digits; a last half byte of 11 or 13
   * makes it negative.
   */
  lemma PackedSays(b: seq<byte>, precision: nat, scale: nat)
    ensures PackedText(b, precision, scale).Some? <==>
            |b| == precision / 2 + 1 && forall k: nat | k < 2 * |b| - 1 :: HalfByte(b, k) <= 9
    ensures PackedText(b, precision, scale).Some? ==>
      var digits := PackedDigits(b, precision);
      && |digits| == 2 * |b| - 1
      && (forall k: nat | k < |digits| :: digits[k] as int == '0' as int + HalfByte(b, k))
      && PackedText(b, precision, scale)
         == Some(FormatDecimal(digits, scale, b[|b| - 1] % 16 == 11 || b[|b| - 1] % 16 == 13))
  {
    hide Unpack, FormatDecimal;
    forall k: nat | k < 2 * |b| ensures HalfByte(b, k) == Unpack(b)[k] {
      HalfByteUnpacked(b, k);
    }
    if |b| == precision / 2 + 1 {
      assert forall k: nat | k < 2 * |b| - 1 :: Front(Unpack(b))[k] == Unpack(b)[k];
    }
  }

  // ----- Zoned -----

  function ZonedByte(digits: string, negative: bool, i: nat): byte
    requires IsDigits(digits) && i < |digits|
  {
    Both(if negative && i == |digits| - 1 then NEGATIVE else POSITIVE, Value(digits[i]))
  }

  function ZonedField(digits: string, negative: bool): (b: seq<byte>)
    requires IsDigits(digits)
    ensures |b| == |digits|
  {
    seq(|digits|, i requires 0 <= i < |digits| => ZonedByte(digits, negative, i))
  }

  /** encodeZoned, in place. */
  method EncodeZoned(out: array<byte>, digits: string, negative: bool) returns (ok: bool)
    requires IsDigits(digits) && (negative ==> digits != "")
    modifies out
    ensures ok <==> out.Length == |digits|
    ensures out[..] == if ok then ZonedField(digits, negative) else old(out[..])
  {
    if out.Length != |digits| {
      return false;
    }
    for i := 0 to |digits|
      invariant forall j :: 0 <= j < i ==> out[j] == Both(POSITIVE, Value(digits[j]))
    {
      out[i] := Both(POSITIVE, Value(digits[i]));
    }
    if negative {
      out[out.Length - 1] := Both(NEGATIVE, Lo(out[out.Length - 1]));
    }
    return true;
  }

  predicate ValidZoned(b: seq<byte>, precision: nat) {
    |b| == precision && forall i :: 0 <= i < |b| ==> Lo(b[i]) <= 9
  }

  function ZonedDigits(b: seq<byte>): (s: string)
    requires forall i :: 0 <= i < |b| ==> Lo(b[i]) <= 9
    ensures |s| == |b| && IsDigits(s)
  {
    seq(|b|, i requires 0 <= i < |b| => DigitFor(Lo(b[i])))
  }

  predicate ZonedNegative(b: seq<byte>)
    requires b != []
  {
    IsNegative(Hi(Last(b)))
  }

  function ZonedText(b: seq<byte>, precision: nat, scale: nat): Option<string>
    requires precision >= 1
  {
    if ValidZoned(b, precision) then Some(FormatDecimal(ZonedDigits(b), scale, ZonedNegative(b))) else None
  }

  /** decodeZoned, which reads the zone of the last byte and so needs one. */
  method DecodeZoned(b: seq<byte>, precision: nat, scale: nat) returns (r: Option<string>)
    requires precision >= 1
    ensures r == ZonedText(b, precision, scale)
  {
    if |b| != precision {
      return None;
    }
    var digits := "";
    for i := 0 to |b|
      invariant |digits| == i
      invariant forall j :: 0 <= j < i ==> Lo(b[j]) <= 9 && digits[j] == DigitFor(Lo(b[j]))
    {
      var d := Lo(b[i]);
      if d > 9 {
        return None;
      }
      digits := digits + [DigitFor(d)];
    }
    assert digits == ZonedDigits(b);
    return Some(FormatDecimal(digits, scale, ZonedNegative(b)));
  }

  /** The bytes of a zoned field: a zone of 15 and the digit, but a zone of 13 in the last byte of a negative number. */
  lemma ZonedBytes(digits: string, negative: bool)
    requires IsDigits(digits)
    ensures var b := ZonedField(digits, negative);
      && |b| == |digits|
      && forall i :: 0 <= i < |b| ==>
           b[i] == (if negative && i == |b| - 1 then 0xD0 else 0xF0) + (digits[i] as int - '0' as int)
  {
  }

  /** What a zoned field says: the low halves are its digits, and a last zone of 11 or 13 makes it negative. */
  lemma ZonedSays(b: seq<byte>, precision: nat, scale: nat)
    requires precision >= 1
    ensures ZonedText(b, precision, scale).Some? <==> |b| == precision && forall i :: 0 <= i < |b| ==> b[i] % 16 <= 9
    ensures ZonedText(b, precision, scale).Some? ==>
      var digits := ZonedDigits(b);
      && |digits| == |b|
      && (forall i :: 0 <= i < |b| ==> digits[i] as int == '0' as int + b[i] % 16)
      && ZonedText(b, precision, scale)
         == Some(FormatDecimal(digits, scale, b[|b| - 1] / 16 == 11 || b[|b| - 1] / 16 == 13))
  {
    hide FormatDecimal;
  }

  lemma ZonedHolds(digits: string, negative: bool)
    requires IsDigits(digits) && digits != ""
    ensures var b := ZonedField(digits, negative);
      ValidZoned(b, |digits|) && ZonedDigits(b) == digits && ZonedNegative(b) == negative
  {
    hide Hi, Lo, Both;
    var b := ZonedField(digits, negative);
    forall i | 0 <= i < |b| ensures Lo(b[i]) == Value(digits[i]) && DigitFor(Value(digits[i])) == digits[i] {
      BothParts(if negative && i == |digits| - 1 then NEGATIVE else POSITIVE, Value(digits[i]));
    }
    BothParts(if negative then NEGATIVE else POSITIVE, Value(Last(digits)));
  }

  /** Text to zoned field to text. */
  lemma ZonedRoundTrip(s: string, precision: nat, scale: nat)
    requires precision >= 1 && ScaleToDigits(s, precision, scale).Success?
    ensures var (digits, negative) := ScaleToDigits(s, precision, scale).value;
      && IsDigits(digits)
      && (exists sign ::
            && Representable(s, precision, scale, sign, Number(digits))
            && (negative <==> sign && Number(digits) != 0))
      && var t := ZonedText(ZonedField(digits, negative), precision, scale);
         t.Some? && IsCanonical(t.value, negative, Number(digits), scale)
  {
    hide ScaleToDigits, Canonical, Representable, ZonedField, Number;
    DigitsAreExact(s, precision, scale);
    var (digits, negative) := ScaleToDigits(s, precision, scale).value;
    ZonedHolds(digits, negative);
    FormatIsCanonical(digits, scale, negative);
  }

  /** A zoned field with every zone as this client writes it. */
  function NormalZones(b: seq<byte>, negative: bool): seq<byte> {
    seq(|b|, i requires 0 <= i < |b| => (if negative && i == |b| - 1 then 0xD0 else 0xF0) + b[i] % 0x10)
  }

  /** Zoned field to text to field: the same bytes up to their zones, whenever the scale is within the precision. */
  lemma ZonedReverse(b: seq<byte>, precision: nat, scale: nat)
    requires precision >= 1 && ValidZoned(b, precision)
    ensures var t := ZonedText(b, precision, scale).value;
      var r := ScaleToDigits(t, precision, scale);
      if scale <= precision then
        && r.Success? && IsDigits(r.value.0)
        && ZonedField(r.value.0, r.value.1) == NormalZones(b, ZonedNegative(b) && Number(ZonedDigits(b)) != 0)
      else
        r.Failure?
  {
    hide ScaleToDigits, Number, Pow10, FormatDecimal;
    var digits := ZonedDigits(b);
    DecodedIsAccepted(digits, ZonedNegative(b), precision, scale);
    NumberBound(digits);
    var r := ScaleToDigits(ZonedText(b, precision, scale).value, precision, scale);
    if r.Success? {
      NumberInjective(r.value.0, digits);
    }
  }
}
