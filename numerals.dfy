/** Arbitrary-precision numerals, as the codec uses `math/big`:
    `SetString(s, base)` reads a numeral (`Value`), `Text(16)` and `String()`
    write one without leading zeros (`Text`). Digits are `0-9a-f`, lowercase,
    most significant first. */
module Numerals {
  import opened Common


  predicate IsDigitChar(c: char) {
    '0' <= c <= '9' || 'a' <= c <= 'f'
  }

  /** `strconv.ParseInt(string(c), 16, …)` on one hex digit. */
  function DigitValue(c: char): nat {
    if '0' <= c <= '9' then c as int - '0' as int
    else if 'a' <= c <= 'f' then c as int - 'a' as int + 10
    else 0
  }

  /** `fmt.Sprintf("%x", d)` on a value below 16. */
  function DigitChar(d: nat): (c: char)
    requires d < 16
    ensures IsDigitChar(c) && DigitValue(c) == d
  {
    if d < 10 then ('0' as int + d) as char else ('a' as int + d - 10) as char
  }

  lemma DigitCharOfValue(c: char)
    requires IsDigitChar(c)
    ensures DigitValue(c) < 16 && DigitChar(DigitValue(c)) == c
  {
  }

  /** `s` is a numeral in `base`: every character is a digit below `base`. */
  predicate IsNumeral(s: string, base: nat) {
    forall i :: 0 <= i < |s| ==> IsDigitChar(s[i]) && DigitValue(s[i]) < base
  }

  /** The number a numeral denotes (the empty numeral denotes 0). */
  function Value(s: string, base: nat): nat {
    if s == [] then 0 else Value(s[..|s| - 1], base) * base + DigitValue(s[|s| - 1])
  }

  function Pow(b: nat, k: nat): nat {
    if k == 0 then 1 else b * Pow(b, k - 1)
  }

  /** The shortest numeral of `v` in `base`: "0" for zero, otherwise no
      leading zero. */
  function Text(v: nat, base: nat): (r: string)
    requires 2 <= base <= 16
    ensures |r| >= 1 && IsNumeral(r, base) && Value(r, base) == v
    ensures |r| > 1 ==> r[0] != '0'
    decreases v
  {
    if v < base then [DigitChar(v)]
    else
      DivMod(v, base);
      var t := Text(v / base, base);
      assert (t + [DigitChar(v % base)])[..|t|] == t;
      t + [DigitChar(v % base)]
  }

  lemma DivMod(v: nat, base: nat)
    requires 2 <= base
    ensures v == (v / base) * base + v % base && v % base < base
    ensures v >= base ==> 1 <= v / base < v
  {
    var q := v / base;
    if v >= base {
      assert q * base == v - v % base > 0;
      MulMonotone(2, base, q);
      MulMonotone(q, 0, base);
    }
  }

  /** `strings.Repeat("0", size-len(s)) + s` when `s` is shorter than `size`. */
  function PadLeft(s: string, size: nat): (r: string)
    ensures |r| == if |s| < size then size else |s|
  {
    if |s| < size then Repeat('0', size - |s|) + s else s
  }

  lemma MulMonotone(a: nat, b: nat, c: nat)
    ensures a <= b ==> a * c <= b * c
  {
  }

  /** Division by `base` has a unique quotient and remainder. */
  lemma DivModUnique(q1: nat, r1: nat, q2: nat, r2: nat, base: nat)
    requires r1 < base && r2 < base
    requires q1 * base + r1 == q2 * base + r2
    ensures q1 == q2 && r1 == r2
  {
    MulMonotone(q1 + 1, q2, base);
    MulMonotone(q2 + 1, q1, base);
  }

  /** A numeral of `k` digits denotes less than `base^k`. */
  lemma {:induction false} ValueBound(s: string, base: nat)
    requires IsNumeral(s, base)
    ensures Value(s, base) < Pow(base, |s|)
    decreases |s|
  {
    if s != [] {
      var s' := s[..|s| - 1];
      var x, d, P := Value(s', base), DigitValue(s[|s| - 1]), Pow(base, |s'|);
      assert IsNumeral(s', base) by {
        assert forall i :: 0 <= i < |s'| ==> s'[i] == s[i];
      }
      ValueBound(s', base);
      assert Value(s, base) == x * base + d;
      assert Pow(base, |s|) == base * P;
      DigitStepBound(x, d, base, P);
    }
  }

  /** One more digit multiplies the bound by `base`. */
  lemma DigitStepBound(x: nat, d: nat, base: nat, P: nat)
    requires x < P && d < base
    ensures x * base + d < base * P
  {
    MulMonotone(x + 1, P, base);
    assert (x + 1) * base == x * base + base;
    assert P * base == base * P;
  }

  /** A number below `base^k` is written with at most `k` digits. */
  lemma {:induction false} TextLength(v: nat, base: nat, k: nat)
    requires 2 <= base <= 16 && k >= 1 && v < Pow(base, k)
    ensures |Text(v, base)| <= k
    decreases v
  {
    if v >= base {
      DivMod(v, base);
      assert Pow(base, k) == Pow(base, k - 1) * base;
      MulMonotone(Pow(base, k - 1), v / base, base);
      MulMonotone(1, Pow(base, k - 1), base);
      assert k - 1 >= 1 by {
        assert Pow(base, 0) == 1;
      }
      TextLength(v / base, base, k - 1);
    }
  }

  lemma {:induction false} ValueOfZeros(n: nat, base: nat)
    ensures Value(Repeat('0', n), base) == 0
  {
    if n > 0 {
      var z, z' := Repeat('0', n), Repeat('0', n - 1);
      assert z[..n - 1] == z';
      ValueOfZeros(n - 1, base);
      calc {
        Value(z, base);
        Value(z', base) * base + DigitValue(z[n - 1]);
        0 * base + DigitValue('0');
        0;
      }
    }
  }

  /** Leading zeros do not change the value of a numeral. */
  lemma {:induction false} ValueLeadingZeros(n: nat, s: string, base: nat)
    ensures Value(Repeat('0', n) + s, base) == Value(s, base)
    decreases |s|
  {
    if s == [] {
      assert Repeat('0', n) + s == Repeat('0', n);
      ValueOfZeros(n, base);
    } else {
      var s' := s[..|s| - 1];
      assert (Repeat('0', n) + s)[..|Repeat('0', n) + s| - 1] == Repeat('0', n) + s';
      ValueLeadingZeros(n, s', base);
    }
  }

  /** Two numerals of the same length and value are the same string. */
  lemma {:induction false} NumeralUnique(x: string, y: string, base: nat)
    requires IsNumeral(x, base) && IsNumeral(y, base) && |x| == |y|
    requires Value(x, base) == Value(y, base)
    ensures x == y
    decreases |x|
  {
    if x != [] {
      var n := |x| - 1;
      DivModUnique(Value(x[..n], base), DigitValue(x[n]), Value(y[..n], base), DigitValue(y[n]), base);
      NumeralUnique(x[..n], y[..n], base);
      DigitCharOfValue(x[n]);
      DigitCharOfValue(y[n]);
      assert x == x[..n] + [x[n]] && y == y[..n] + [y[n]];
    }
  }

  /** Padding with leading zeros keeps a numeral and its value. */
  lemma PadNumeral(t: string, size: nat, base: nat)
    requires base >= 2 && IsNumeral(t, base)
    ensures IsNumeral(PadLeft(t, size), base) && Value(PadLeft(t, size), base) == Value(t, base)
  {
    if |t| < size {
      var z := Repeat('0', size - |t|);
      assert forall i :: 0 <= i < |z| ==> (z + t)[i] == '0';
      assert forall i :: |z| <= i < |z + t| ==> (z + t)[i] == t[i - |z|];
      ValueLeadingZeros(size - |t|, t, base);
    }
  }

  /** Reading a numeral of `k >= 1` digits and writing it back, padded with
      leading zeros to `k` digits, gives the numeral back. */
  lemma PadTextValue(s: string, base: nat)
    requires 2 <= base <= 16 && |s| >= 1 && IsNumeral(s, base)
    ensures PadLeft(Text(Value(s, base), base), |s|) == s
  {
    var t := Text(Value(s, base), base);
    ValueBound(s, base);
    TextLength(Value(s, base), base, |s|);
    PadNumeral(t, |s|, base);
    NumeralUnique(PadLeft(t, |s|), s, base);
  }

  /** Sixteen to the power k-1 is at least ten to the power k once k >= 6:
      a numeral of k >= 6 decimal digits fits in k-1 hex digits. */
  lemma {:induction false} PowTenBelowPowSixteen(k: nat)
    requires k >= 6
    ensures Pow(10, k) <= Pow(16, k - 1)
    decreases k
  {
    if k == 6 {
      assert Pow(10, 6) == 1000000;
      assert Pow(16, 5) == 1048576;
    } else {
      PowTenBelowPowSixteen(k - 1);
      MulMonotone(Pow(10, k - 1), Pow(16, k - 2), 10);
    }
  }

  /** The hex text of a number read from `k >= 6` decimal digits has at most
      `k - 1` digits. */
  lemma HexShorterThanDecimal(s: string)
    requires |s| >= 6 && IsNumeral(s, 10)
    ensures |Text(Value(s, 10), 16)| <= |s| - 1
  {
    ValueBound(s, 10);
    PowTenBelowPowSixteen(|s|);
    TextLength(Value(s, 10), 16, |s| - 1);
  }
}
