/** Strings of decimal digits and the numbers they stand for. */
module Digits {
  predicate IsDigit(c: char) {
    '0' <= c <= '9'
  }

  predicate IsDigits(s: string) {
    forall i :: 0 <= i < |s| ==> IsDigit(s[i])
  }

  function Value(c: char): (d: nat)
    requires IsDigit(c)
    ensures d <= 9
  {
    c as int - '0' as int
  }

  function DigitFor(d: nat): (c: char)
    requires d <= 9
    ensures IsDigit(c) && Value(c) == d
  {
    '0' + d as char
  }

  /** Which digit stands for which number. */
  lemma DigitsStandFor(d: nat)
    requires d <= 9
    ensures var c := "0123456789"[d]; IsDigit(c) && Value(c) == d && DigitFor(d) == c
  {
  }

  function Number(s: string): nat
    requires IsDigits(s)
  {
    if s == [] then 0 else Number(s[..|s| - 1]) * 10 + Value(s[|s| - 1])
  }

  function Pow10(n: nat): (p: nat)
    ensures p >= 1
  {
    if n == 0 then 1 else 10 * Pow10(n - 1)
  }

  /** strings.Repeat("0", n) */
  function Zeros(n: nat): (s: string)
    ensures |s| == n && IsDigits(s) && forall i :: 0 <= i < n ==> s[i] == '0'
  {
    seq(n, _ => '0')
  }

  /** Whether trimming zeros leaves nothing. */
  predicate AllZero(s: string) {
    forall i :: 0 <= i < |s| ==> s[i] == '0'
  }

  /** strings.TrimLeft(s, "0") */
  function TrimZeros(s: string): (t: string)
    ensures |t| <= |s| && t == s[|s| - |t|..]
    ensures forall i :: 0 <= i < |s| - |t| ==> s[i] == '0'
    ensures t == [] || t[0] != '0'
  {
    if s == [] || s[0] != '0' then s else TrimZeros(s[1..])
  }

  lemma TrimmedIsPadded(s: string)
    ensures s == Zeros(|s| - |TrimZeros(s)|) + TrimZeros(s)
    ensures IsDigits(s) ==> IsDigits(TrimZeros(s))
  {
    var t := TrimZeros(s);
    hide TrimZeros, IsDigit;
    var n := |s| - |t|;
    assert s[..n] == Zeros(n);
    assert s == s[..n] + s[n..];
  }

  lemma {:induction false} PowAdd(a: nat, b: nat)
    ensures Pow10(a + b) == Pow10(a) * Pow10(b)
  {
    if a > 0 {
      PowAdd(a - 1, b);
      Assoc(10, Pow10(a - 1), Pow10(b));
    }
  }

  lemma Assoc(a: nat, b: nat, c: nat)
    ensures (a * b) * c == a * (b * c)
  {
  }

  lemma {:induction false} PowMonotone(a: nat, b: nat)
    requires a <= b
    ensures Pow10(a) <= Pow10(b)
  {
    if a < b {
      PowMonotone(a, b - 1);
    }
  }

  lemma {:induction false} NumberConcat(a: string, b: string)
    requires IsDigits(a) && IsDigits(b)
    ensures IsDigits(a + b) && Number(a + b) == Number(a) * Pow10(|b|) + Number(b)
  {
    hide Number, Pow10, Value, IsDigit;
    if b == [] {
      assert a + b == a;
      NumberOfNothing();
    } else {
      var n := |b| - 1;
      NumberConcat(a, b[..n]);
      assert (a + b)[..|a + b| - 1] == a + b[..n];
      assert (a + b)[|a + b| - 1] == b[n];
      LastDigit(a + b);
      LastDigit(b);
      Assoc(Number(a), Pow10(n), 10);
    }
  }

  lemma NumberOfNothing()
    ensures Number("") == 0 && Pow10(0) == 1
  {
  }

  lemma LastDigit(s: string)
    requires IsDigits(s) && s != ""
    ensures Number(s) == Number(s[..|s| - 1]) * 10 + Value(s[|s| - 1]) && Pow10(|s|) == Pow10(|s| - 1) * 10
  {
  }

  lemma {:induction false} NumberBound(s: string)
    requires IsDigits(s)
    ensures Number(s) < Pow10(|s|)
  {
    if s != [] {
      NumberBound(s[..|s| - 1]);
    }
  }

  lemma {:induction false} NumberZeros(n: nat)
    ensures Number(Zeros(n)) == 0
  {
    if n > 0 {
      NumberZeros(n - 1);
      assert Zeros(n)[..n - 1] == Zeros(n - 1);
    }
  }

  /** A digit string stands for zero exactly when it is all zeros. */
  lemma {:induction false} NumberZero(s: string)
    requires IsDigits(s)
    ensures Number(s) == 0 <==> AllZero(s)
  {
    if s != [] {
      NumberZero(s[..|s| - 1]);
    }
  }

  lemma NumberPadded(n: nat, s: string)
    requires IsDigits(s)
    ensures IsDigits(Zeros(n) + s) && Number(Zeros(n) + s) == Number(s)
  {
    NumberConcat(Zeros(n), s);
    NumberZeros(n);
  }

  lemma NumberLeading(s: string)
    requires IsDigits(s) && s != [] && s[0] != '0'
    ensures Number(s) >= Pow10(|s| - 1)
  {
    assert s == s[..1] + s[1..];
    NumberConcat(s[..1], s[1..]);
    assert s[..1][..0] == [];
    assert Number(s[..1]) == Value(s[0]) >= 1;
    AtLeastOnce(Number(s[..1]), Pow10(|s| - 1));
  }

  lemma AtLeastOnce(a: nat, b: nat)
    requires a >= 1
    ensures a * b >= b
  {
  }

  /** A number has at most k digits, leading zeros aside, exactly when it is below 10^k. */
  lemma TrimmedLength(s: string, k: nat)
    requires IsDigits(s)
    ensures IsDigits(TrimZeros(s)) && Number(TrimZeros(s)) == Number(s)
    ensures |TrimZeros(s)| <= k <==> Number(s) < Pow10(k)
  {
    hide Number, Pow10, Zeros, TrimZeros, IsDigits;
    var t := TrimZeros(s);
    TrimmedIsPadded(s);
    NumberPadded(|s| - |t|, t);
    LengthOfNumber(t, k);
  }

  lemma LengthOfNumber(t: string, k: nat)
    requires IsDigits(t) && (t == "" || t[0] != '0')
    ensures |t| <= k <==> Number(t) < Pow10(k)
  {
    hide Number, Pow10, IsDigits;
    if |t| <= k {
      NumberBound(t);
      PowMonotone(|t|, k);
    } else {
      NumberLeading(t);
      PowMonotone(k, |t| - 1);
    }
  }

  /** Digit strings of one length are determined by their numbers. */
  lemma {:induction false} NumberInjective(a: string, b: string)
    requires IsDigits(a) && IsDigits(b) && |a| == |b| && Number(a) == Number(b)
    ensures a == b
  {
    if a != [] {
      var n := |a| - 1;
      NumberInjective(a[..n], b[..n]);
      assert a == a[..n] + [a[n]] && b == b[..n] + [b[n]];
    }
  }

  /** A number in decimal. */
  function Numeral(n: nat): (s: string)
    ensures IsDigits(s) && s != ""
  {
    if n < 10 then [DigitFor(n)] else Numeral(n / 10) + [DigitFor(n % 10)]
  }

  lemma {:induction false} NumberNumeral(n: nat)
    ensures Number(Numeral(n)) == n
  {
    if n >= 10 {
      NumberNumeral(n / 10);
      assert Numeral(n)[..|Numeral(n)| - 1] == Numeral(n / 10);
    }
  }
}
