/** Exact decimals: from text to a scaled integer of fixed width, and back to canonical text. */
module Decimal {
  import opened Wrappers
  import opened Arithmetic
  import opened Digits

  datatype Refusal = NotADecimal | TooManyFractionDigits | DoesNotFit

  // ----- The code -----

  /** strings.Cut(s, ".") */
  function Cut(s: string): (r: (string, string))
    ensures '.' !in r.0
    ensures s == r.0 + "." + r.1 || (s == r.0 && r.1 == "")
    decreases |s|
  {
    if s == "" then ("", "")
    else if s[0] == '.' then
      assert s == "" + "." + s[1..];
      ("", s[1..])
    else
      var (a, b) := Cut(s[1..]);
      assert s == [s[0]] + s[1..];
      ([s[0]] + a, b)
  }

  /** The sign and the rest of a number's text. */
  function Unsigned(s: string): (bool, string) {
    if s != "" && s[0] == '-' then (true, s[1..])
    else if s != "" && s[0] == '+' then (false, s[1..])
    else (false, s)
  }

  /** The fraction cut or padded to `scale` digits, unless that would lose something. */
  function FitFraction(frac: string, scale: nat): Option<string> {
    if |frac| > scale then
      if AllZero(frac[scale..]) then Some(frac[..scale]) else None
    else Some(frac + Zeros(scale - |frac|))
  }

  function ScaleToDigits(s: string, precision: nat, scale: nat): Result<(string, bool), Refusal> {
    var (negative, rest) := Unsigned(s);
    var (intPart, fracPart) := Cut(rest);
    if intPart == "" && fracPart == "" then Failure(NotADecimal)
    else if !IsDigits(intPart) || !IsDigits(fracPart) then Failure(NotADecimal)
    else
      var frac := FitFraction(fracPart, scale);
      if frac.None? then Failure(TooManyFractionDigits)
      else
        var whole := TrimZeros(intPart);
        if |whole| > precision - scale then Failure(DoesNotFit)
        else
          var digits := Zeros(precision - scale - |whole|) + whole + frac.value;
          Success((digits, negative && !AllZero(digits)))
  }

  /** The decimal point and the fraction, if there is to be one. */
  function Point(frac: string): string {
    if frac == "" then "" else "." + frac
  }

  /** A decimal point `scale` digits from the right, and no redundant zeros before it. */
  function Pointed(padded: string, scale: nat): string
    requires scale < |padded|
  {
    var intPart := TrimZeros(padded[..|padded| - scale]);
    (if intPart == "" then "0" else intPart) + Point(padded[|padded| - scale..])
  }

  /** What scaleDigits makes of an unsigned digit string. */
  function ScaleDigits(digits: string, scale: nat): string {
    Pointed(Padded(digits, scale), scale)
  }

  /** At least one digit before the decimal point. */
  function Padded(digits: string, scale: nat): (r: string)
    ensures |r| > scale
  {
    if |digits| <= scale then Zeros(scale + 1 - |digits|) + digits else digits
  }

  method PadByLoop(digits: string, scale: nat) returns (padded: string)
    ensures padded == Padded(digits, scale)
  {
    padded := digits;
    ghost var n := 0;
    assert digits == Zeros(0) + digits;
    while |padded| <= scale
      invariant padded == Zeros(n) + digits && (n == 0 || |padded| <= scale + 1)
      decreases scale + 1 - |padded|
    {
      assert "0" + (Zeros(n) + digits) == Zeros(n + 1) + digits;
      padded, n := "0" + padded, n + 1;
    }
  }

  /** scaleDigits, whose digits may carry a minus sign. */
  function SignedScaleDigits(digits: string, scale: nat): string {
    if "-" <= digits then "-" + ScaleDigits(digits[1..], scale) else ScaleDigits(digits, scale)
  }

  method ScaleDigitsByLoop(digits: string, scale: nat) returns (s: string)
    ensures s == SignedScaleDigits(digits, scale)
  {
    var sign, unsigned := "", digits;
    if "-" <= digits {
      sign, unsigned := "-", digits[1..];
    }
    var padded := PadByLoop(unsigned, scale);
    s := sign + Pointed(padded, scale);
  }

  function FormatDecimal(digits: string, scale: nat, negative: bool): string {
    var s := ScaleDigits(digits, scale);
    if negative && !Blank(s) then "-" + s else s
  }

  // ----- What the texts mean -----

  function Sign(plus: bool, negative: bool): string {
    if negative then "-" else if plus then "+" else ""
  }

  /** The text s is the decimal numeral with these digits before and after the point. */
  predicate Spells(s: string, negative: bool, whole: string, frac: string) {
    && IsDigits(whole) && IsDigits(frac) && (whole != "" || frac != "")
    && exists plus: bool ::
      var sign := Sign(plus, negative);
      s == sign + whole + "." + frac || (frac == "" && s == sign + whole)
  }

  /** m is the number whole.frac times 10^scale; there is one only if no non-zero digit lies past the scale. */
  predicate Scaled(whole: string, frac: string, scale: nat, m: nat)
    requires IsDigits(whole) && IsDigits(frac)
  {
    m * Pow10(|frac|) == Number(whole + frac) * Pow10(scale)
  }

  /** The canonical text of m / 10^scale: exactly scale fraction digits, no redundant zeros, and no negative zero. */
  predicate Canonical(t: string, negative: bool, m: nat, scale: nat, whole: string, frac: string) {
    && IsDigits(whole) && IsDigits(frac)
    && whole != "" && (whole == "0" || whole[0] != '0')
    && |frac| == scale
    && Number(whole + frac) == m
    && t == Sign(false, negative && m != 0) + (whole + Point(frac))
  }

  // ----- Parsing -----

  lemma {:induction false} CutAtPoint(whole: string, frac: string)
    requires '.' !in whole
    ensures Cut(whole + "." + frac) == (whole, frac)
  {
    var s := whole + "." + frac;
    if whole == "" {
      assert s[1..] == frac;
    } else {
      CutAtPoint(whole[1..], frac);
      assert s[1..] == whole[1..] + "." + frac;
      assert whole == [whole[0]] + whole[1..];
    }
  }

  lemma {:induction false} CutNowhere(whole: string)
    requires '.' !in whole
    ensures Cut(whole) == (whole, "")
  {
    if whole != "" {
      CutNowhere(whole[1..]);
      assert whole == [whole[0]] + whole[1..];
    }
  }

  lemma UnsignedBody(plus: bool, negative: bool, body: string)
    requires body != "" && body[0] != '-' && body[0] != '+'
    ensures Unsigned(Sign(plus, negative) + body) == (negative, body)
  {
    var s := Sign(plus, negative) + body;
    if Sign(plus, negative) == "" {
      assert s == body;
    } else {
      assert s[1..] == body;
    }
  }

  /** The code takes a text apart exactly as it is spelled. */
  lemma SpellsIsParsed(s: string, negative: bool, whole: string, frac: string)
    requires Spells(s, negative, whole, frac)
    ensures Unsigned(s).0 == negative && Cut(Unsigned(s).1) == (whole, frac)
  {
    hide Cut, Unsigned;
    var plus: bool :|
      var sign := Sign(plus, negative);
      s == sign + whole + "." + frac || (frac == "" && s == sign + whole);
    if s == Sign(plus, negative) + whole + "." + frac {
      var body := whole + "." + frac;
      assert s == Sign(plus, negative) + body;
      assert body[0] == if whole == "" then '.' else whole[0];
      UnsignedBody(plus, negative, body);
      CutAtPoint(whole, frac);
    } else {
      UnsignedBody(plus, negative, whole);
      CutNowhere(whole);
    }
  }

  lemma ParsedIsSpelled(s: string)
    ensures var (negative, rest) := Unsigned(s);
      var (whole, frac) := Cut(rest);
      IsDigits(whole) && IsDigits(frac) && (whole != "" || frac != "") ==> Spells(s, negative, whole, frac)
  {
    var (negative, rest) := Unsigned(s);
    var (whole, frac) := Cut(rest);
    var plus := s != "" && s[0] == '+';
    assert s == Sign(plus, negative) + rest;
    if rest == whole + "." + frac {
      assert s == Sign(plus, negative) + whole + "." + frac;
    }
  }

  // ----- Scaling -----

  /** The fraction fits its scale exactly when scaling it leaves an integer. */
  lemma FractionFits(frac: string, scale: nat)
    requires IsDigits(frac)
    ensures var r := FitFraction(frac, scale);
      && (r.None? <==> |frac| > scale && Number(frac[scale..]) != 0)
      && (r.Some? ==> |r.value| == scale && IsDigits(r.value)
                      && Number(r.value) * Pow10(|frac|) == Number(frac) * Pow10(scale))
  {
    if |frac| > scale {
      NumberZero(frac[scale..]);
      var a, b := frac[..scale], frac[scale..];
      assert frac == a + b;
      NumberConcat(a, b);
      PowAdd(|b|, scale);
      Assoc(Number(a), Pow10(|b|), Pow10(scale));
    } else {
      var pad := Zeros(scale - |frac|);
      NumberConcat(frac, pad);
      NumberZeros(scale - |frac|);
      PowAdd(scale - |frac|, |frac|);
      Assoc(Number(frac), Pow10(scale - |frac|), Pow10(|frac|));
    }
  }

  /** Putting an integer part in front. */
  lemma IntegerPart(i: nat, f: nat, f': nat, k: nat, p: nat)
    requires f' * k == f * p
    ensures (i * p + f') * k == (i * k + f) * p
  {
    calc {
      (i * p + f') * k;
      i * p * k + f' * k;
      i * k * p + f * p;
      (i * k + f) * p;
    }
  }

  /** The scaled number is unique. */
  lemma ScaledUnique(whole: string, frac: string, scale: nat, m: nat, m': nat)
    requires IsDigits(whole) && IsDigits(frac) && Scaled(whole, frac, scale, m) && Scaled(whole, frac, scale, m')
    ensures m == m'
  {
    CancelFactor(m, m', Pow10(|frac|));
  }

  /** The integer and the fitted fraction, side by side, are the scaled number. */
  lemma FittedScales(whole: string, frac: string, scale: nat)
    requires IsDigits(whole) && IsDigits(frac) && FitFraction(frac, scale).Some?
    ensures IsDigits(FitFraction(frac, scale).value)
    ensures Scaled(whole, frac, scale, Number(whole + FitFraction(frac, scale).value))
  {
    FractionFits(frac, scale);
    var fitted := FitFraction(frac, scale).value;
    NumberConcat(whole, fitted);
    NumberConcat(whole, frac);
    IntegerPart(Number(whole), Number(frac), Number(fitted), Pow10(|frac|), Pow10(scale));
  }

  /** A fraction with something past the scale has no scaled number. */
  lemma UnfitNeverScales(whole: string, frac: string, scale: nat, m: nat)
    requires IsDigits(whole) && IsDigits(frac) && FitFraction(frac, scale).None?
    ensures !Scaled(whole, frac, scale, m)
  {
    FractionFits(frac, scale);
    var a, b := whole + frac[..scale], frac[scale..];
    assert whole + frac == a + b;
    NumberConcat(a, b);
    NumberBound(b);
    PowAdd(|b|, scale);
    if Scaled(whole, frac, scale, m) {
      Between(m, Number(a), Number(b), Pow10(|b|), Pow10(scale));
    }
  }

  lemma NotMultiple(m: nat, a: nat, b: nat, k: nat)
    requires 0 < b < k
    ensures m * k != a * k + b
  {
    if m <= a {
      MulMonotone(m, a, k);
    } else {
      MulStrict(a, m, k);
    }
  }

  lemma Between(m: nat, a: nat, b: nat, k: nat, p: nat)
    requires 0 < b < k && p > 0
    ensures m * (k * p) != (a * k + b) * p
  {
    Assoc(m, k, p);
    NotMultiple(m, a, b, k);
    if m * k * p == (a * k + b) * p {
      CancelFactor(m * k, a * k + b, p);
    }
  }

  /** The integer part has room exactly when the scaled number has at most `precision` digits. */
  lemma RoomMeansBelow(whole: string, fitted: string, precision: nat, scale: nat)
    requires IsDigits(whole) && IsDigits(fitted) && |fitted| == scale && scale <= precision
    ensures IsDigits(whole + fitted)
    ensures |TrimZeros(whole)| <= precision - scale <==> Number(whole + fitted) < Pow10(precision)
  {
    hide Pow10, Number, TrimZeros;
    TrimmedLength(whole, precision - scale);
    NumberConcat(whole, fitted);
    NumberBound(fitted);
    PowAdd(precision - scale, scale);
    Room(Number(whole), Number(fitted), Pow10(precision - scale), Pow10(scale));
  }

  lemma Room(i: nat, f: nat, k: nat, p: nat)
    requires f < p
    ensures i < k <==> i * p + f < k * p
  {
    if i < k {
      MulStrict(i, k, p);
    } else {
      MulMonotone(k, i, p);
    }
  }

  // ----- The main results about text -----

  /** The value the text spells, scaled, exists and is small enough for the column. */
  ghost predicate Representable(s: string, precision: nat, scale: nat, negative: bool, m: nat) {
    exists whole, frac :: Spells(s, negative, whole, frac) && Scaled(whole, frac, scale, m) && m < Pow10(precision)
  }

  /**
   * What ScaleToDigits returns for that value: its digits, at the column's full
   * width, and a sign for a non-zero value.
   */
  lemma DigitsAreExact(s: string, precision: nat, scale: nat)
    ensures match ScaleToDigits(s, precision, scale)
      case Success((digits, negative)) =>
        && scale <= precision && |digits| == precision && IsDigits(digits)
        && (exists sign ::
              && Representable(s, precision, scale, sign, Number(digits))
              && (negative <==> sign && Number(digits) != 0))
      case Failure(_) => true
  {
    hide Pow10, Number, TrimZeros, FitFraction, Cut, Spells, Scaled;
    var (sign, rest) := Unsigned(s);
    var (whole, frac) := Cut(rest);
    if ScaleToDigits(s, precision, scale).Success? {
      var (digits, negative) := ScaleToDigits(s, precision, scale).value;
      ParsedIsSpelled(s);
      var fitted := FitFraction(frac, scale).value;
      FittedScales(whole, frac, scale);
      FractionFits(frac, scale);
      RoomMeansBelow(whole, fitted, precision, scale);
      WidthKeepsNumber(whole, fitted, precision, scale);
      NumberZero(digits);
      assert Representable(s, precision, scale, sign, Number(digits));
    }
  }

  /** Trimming the integer part and padding the whole to its width keeps the number. */
  lemma WidthKeepsNumber(whole: string, fitted: string, precision: nat, scale: nat)
    requires IsDigits(whole) && IsDigits(fitted) && |fitted| == scale && |TrimZeros(whole)| <= precision - scale
    ensures var digits := Zeros(precision - scale - |TrimZeros(whole)|) + TrimZeros(whole) + fitted;
      IsDigits(digits) && |digits| == precision && IsDigits(whole + fitted) && Number(digits) == Number(whole + fitted)
  {
    hide Pow10, Number, TrimZeros, IsDigits, Zeros;
    var t, n := TrimZeros(whole), precision - scale - |TrimZeros(whole)|;
    TrimmedLength(whole, precision - scale);
    NumberConcat(t, fitted);
    NumberConcat(whole, fitted);
    NumberPadded(n, t + fitted);
    assert Zeros(n) + t + fitted == Zeros(n) + (t + fitted);
  }

  /**
   * Acceptance. The code accepts a text exactly when it spells a decimal whose
   * value, times 10^scale, is an integer below 10^precision; a scale beyond
   * the precision is never accepted.
   */
  lemma AcceptsExactlyTheRepresentable(s: string, precision: nat, scale: nat)
    ensures ScaleToDigits(s, precision, scale).Success? <==>
            scale <= precision && exists negative, m :: Representable(s, precision, scale, negative, m)
  {
    if ScaleToDigits(s, precision, scale).Success? {
      DigitsAreExact(s, precision, scale);
    }
    if scale <= precision {
      forall negative, m | Representable(s, precision, scale, negative, m)
        ensures ScaleToDigits(s, precision, scale).Success?
      {
        RepresentableIsAccepted(s, precision, scale, negative, m);
      }
    }
  }

  lemma RepresentableIsAccepted(s: string, precision: nat, scale: nat, negative: bool, m: nat)
    requires scale <= precision && Representable(s, precision, scale, negative, m)
    ensures ScaleToDigits(s, precision, scale).Success?
    ensures var (digits, sign) := ScaleToDigits(s, precision, scale).value;
      IsDigits(digits) && |digits| == precision && Number(digits) == m && (sign <==> negative && m != 0)
  {
    var whole, frac :| Spells(s, negative, whole, frac) && Scaled(whole, frac, scale, m) && m < Pow10(precision);
    SpellsIsParsed(s, negative, whole, frac);
    if FitFraction(frac, scale).None? {
      UnfitNeverScales(whole, frac, scale, m);
    }
    FractionFits(frac, scale);
    var fitted := FitFraction(frac, scale).value;
    FittedScales(whole, frac, scale);
    ScaledUnique(whole, frac, scale, m, Number(whole + fitted));
    RoomMeansBelow(whole, fitted, precision, scale);
    DigitsAreExact(s, precision, scale);
    var (digits, sign) := ScaleToDigits(s, precision, scale).value;
    var sign' :| Representable(s, precision, scale, sign', Number(digits)) && (sign <==> sign' && Number(digits) != 0);
    RepresentableUnique(s, precision, scale, negative, m, sign', Number(digits));
  }

  /** A text has one sign and one scaled value. */
  lemma RepresentableUnique(s: string, precision: nat, scale: nat, negative: bool, m: nat, negative': bool, m': nat)
    requires Representable(s, precision, scale, negative, m) && Representable(s, precision, scale, negative', m')
    ensures negative == negative' && m == m'
  {
    var whole, frac :| Spells(s, negative, whole, frac) && Scaled(whole, frac, scale, m) && m < Pow10(precision);
    var whole', frac' :|
      Spells(s, negative', whole', frac') && Scaled(whole', frac', scale, m') && m' < Pow10(precision);
    SpellsIsParsed(s, negative, whole, frac);
    SpellsIsParsed(s, negative', whole', frac');
    ScaledUnique(whole, frac, scale, m, m');
  }

  // ----- Formatting -----

  /** The digits before and after the point of a formatted number. */
  function WholePart(digits: string, scale: nat): string {
    var padded := Padded(digits, scale);
    var t := TrimZeros(padded[..|padded| - scale]);
    if t == "" then "0" else t
  }

  function FractionPart(digits: string, scale: nat): (r: string)
    ensures |r| == scale
  {
    var padded := Padded(digits, scale);
    padded[|padded| - scale..]
  }

  lemma PaddedKeepsNumber(digits: string, scale: nat)
    requires IsDigits(digits)
    ensures IsDigits(Padded(digits, scale)) && Number(Padded(digits, scale)) == Number(digits)
  {
    if |digits| <= scale {
      NumberPadded(scale + 1 - |digits|, digits);
    }
  }

  lemma PartsKeepNumber(digits: string, scale: nat)
    requires IsDigits(digits)
    ensures var whole, frac := WholePart(digits, scale), FractionPart(digits, scale);
      && IsDigits(whole) && IsDigits(frac) && whole != "" && (whole == "0" || whole[0] != '0')
      && IsDigits(whole + frac) && Number(whole + frac) == Number(digits)
  {
    hide Pow10, Number, TrimZeros, Padded;
    var padded := Padded(digits, scale);
    PaddedKeepsNumber(digits, scale);
    var a, b := padded[..|padded| - scale], padded[|padded| - scale..];
    assert padded == a + b;
    TrimmedLength(a, 0);
    NumberConcat(a, b);
    NumberConcat(WholePart(digits, scale), b);
    NumberOfZero();
    assert TrimZeros(a) == "" || TrimZeros(a)[0] != '0' by {
      NoLeadingZero(a);
    }
  }

  lemma NoLeadingZero(s: string)
    ensures TrimZeros(s) == "" || TrimZeros(s)[0] != '0'
  {
  }

  lemma NumberOfZero()
    ensures Number("0") == 0 && Number("") == 0
  {
  }

  /** Whether trimming zeros and points leaves nothing. */
  predicate Blank(s: string) {
    forall i :: 0 <= i < |s| ==> s[i] == '0' || s[i] == '.'
  }

  lemma BlankConcat(a: string, b: string)
    ensures Blank(a + b) <==> Blank(a) && Blank(b)
  {
    if Blank(a + b) {
      assert forall i :: 0 <= i < |a| ==> a[i] == (a + b)[i];
      assert forall i :: 0 <= i < |b| ==> b[i] == (a + b)[|a| + i];
    }
  }

  lemma BlankDigits(s: string)
    requires IsDigits(s)
    ensures Blank(s) <==> Number(s) == 0
  {
    NumberZero(s);
  }

  /** Trimming zeros and points leaves nothing exactly for zero. */
  lemma BlankMeansZero(whole: string, frac: string)
    requires IsDigits(whole) && IsDigits(frac) && IsDigits(whole + frac)
    ensures Blank(whole + Point(frac)) <==> Number(whole + frac) == 0
  {
    hide Number, IsDigits, Blank;
    BlankConcat(whole, Point(frac));
    BlankConcat(".", frac);
    BlankConcat(whole, frac);
    BlankDigits(whole + frac);
    assert Blank(".") && Blank("") by {
      BlankPoint();
    }
  }

  lemma BlankPoint()
    ensures Blank(".") && Blank("")
  {
  }

  /** FormatDecimal writes the canonical text of its digits. */
  lemma FormatIsCanonical(digits: string, scale: nat, negative: bool)
    requires IsDigits(digits)
    ensures Canonical(FormatDecimal(digits, scale, negative), negative, Number(digits), scale,
                      WholePart(digits, scale), FractionPart(digits, scale))
  {
    hide Number, TrimZeros, Padded, IsDigits, Blank, Point;
    var whole, frac := WholePart(digits, scale), FractionPart(digits, scale);
    PartsKeepNumber(digits, scale);
    NumberConcat(whole, frac);
    assert ScaleDigits(digits, scale) == whole + Point(frac);
    BlankMeansZero(whole, frac);
    assert "" + (whole + Point(frac)) == whole + Point(frac);
  }

  /** There is one canonical text for a number. */
  lemma CanonicalUnique(
    t: string, t': string, negative: bool, m: nat, scale: nat, whole: string, frac: string, whole': string,
    frac': string
  )
    requires Canonical(t, negative, m, scale, whole, frac) && Canonical(t', negative, m, scale, whole', frac')
    ensures t == t'
  {
    NumberConcat(whole, frac);
    NumberConcat(whole', frac');
    SameWidth(whole, frac, whole', frac', scale);
    NumberInjective(whole + frac, whole' + frac');
    assert (whole + frac)[..|whole|] == whole && (whole' + frac')[..|whole|] == whole';
    assert (whole + frac)[|whole|..] == frac && (whole' + frac')[|whole|..] == frac';
  }

  lemma SameWidth(whole: string, frac: string, whole': string, frac': string, scale: nat)
    requires IsDigits(whole) && IsDigits(frac) && IsDigits(whole') && IsDigits(frac')
    requires |frac| == |frac'| == scale && IsDigits(whole + frac) && IsDigits(whole' + frac')
    requires Number(whole + frac) == Number(whole' + frac')
    requires whole != "" && (whole == "0" || whole[0] != '0') && whole' != "" && (whole' == "0" || whole'[0] != '0')
    ensures |whole| == |whole'|
  {
    hide Number, Pow10;
    NumberConcat(whole, frac);
    NumberConcat(whole', frac');
    NumberBound(frac);
    NumberBound(frac');
    SameQuotient(Number(whole), Number(frac), Number(whole'), Number(frac'), Pow10(scale));
    if |whole| < |whole'| {
      WiderIsMore(whole, whole');
    } else if |whole'| < |whole| {
      WiderIsMore(whole', whole);
    }
  }

  lemma SameQuotient(a: nat, b: nat, a': nat, b': nat, p: nat)
    requires b < p && b' < p && a * p + b == a' * p + b'
    ensures a == a'
  {
    if a < a' {
      MulStrict(a, a', p);
    } else if a' < a {
      MulStrict(a', a, p);
    }
  }

  lemma WiderIsMore(a: string, b: string)
    requires IsDigits(a) && IsDigits(b) && 0 < |a| < |b| && b[0] != '0'
    ensures Number(a) < Number(b)
  {
    NumberBound(a);
    NumberLeading(b);
    PowMonotone(|a|, |b| - 1);
  }

  /** A canonical text spells its number. */
  lemma CanonicalSpells(t: string, negative: bool, m: nat, scale: nat, whole: string, frac: string, precision: nat)
    requires Canonical(t, negative, m, scale, whole, frac)
    ensures m < Pow10(precision) ==> Representable(t, precision, scale, negative && m != 0, m)
  {
    hide Number, Pow10;
    var sign := Sign(false, negative && m != 0);
    if scale == 0 {
      assert whole + Point(frac) == whole;
    } else {
      assert sign + (whole + ("." + frac)) == sign + whole + "." + frac;
    }
    assert Spells(t, negative && m != 0, whole, frac);
    assert Scaled(whole, frac, scale, m);
  }

  // ----- Integers in columns with a scale -----

  /** An integer in decimal. */
  function FormatInt(v: int): string {
    Sign(false, v < 0) + Numeral(Abs(v))
  }

  function Abs(v: int): nat {
    if v < 0 then -v else v
  }

  /** An integer read from a column with a scale comes back as the canonical text of its number. */
  lemma ScaledIntegerIsCanonical(v: int, scale: nat)
    ensures var d := Numeral(Abs(v));
      var t := SignedScaleDigits(FormatInt(v), scale);
      Canonical(t, v < 0, Abs(v), scale, WholePart(d, scale), FractionPart(d, scale))
  {
    hide ScaleDigits, WholePart, FractionPart, Number, Numeral;
    var d := Numeral(Abs(v));
    NumberNumeral(Abs(v));
    FormatIsCanonical(d, scale, false);
    if v < 0 {
      assert FormatInt(v)[1..] == d;
    } else {
      assert FormatInt(v) == d && d[0] != '-';
    }
  }
}
