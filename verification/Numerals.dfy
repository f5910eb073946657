/**
  Positional numerals in bases 8, 10 and 16: what Python's `int(text, base)` reads and
  `str(n)` prints, restricted to the digits the repository lets through.
*/
module Numerals {

  const DIGITS: string := "0123456789abcdef"

  predicate IsBase(b: nat) {
    b == 8 || b == 10 || b == 16
  }

  /** The digit a lower-case character stands for; 16 (never a digit) for any other character. */
  function DigitValue(c: char): (d: nat)
    ensures d <= 16
  {
    if '0' <= c <= '9' then c as int - '0' as int
    else if 'a' <= c <= 'f' then c as int - 'a' as int + 10
    else 16
  }

  predicate AllDigits(s: string, b: nat) {
    forall i :: 0 <= i < |s| ==> DigitValue(s[i]) < b
  }

  /** The number a digit string denotes, most significant digit first. */
  function Value(s: string, b: nat): nat {
    if s == "" then 0 else Value(s[..|s| - 1], b) * b + DigitValue(s[|s| - 1])
  }

  /** The shortest numeral of `n`. */
  function Repr(n: nat, b: nat): (s: string)
    requires IsBase(b)
    ensures |s| >= 1 && AllDigits(s, b)
    decreases n
  {
    if n < b then [DIGITS[n]]
    else
      DivSmaller(n, b);
      Repr(n / b, b) + [DIGITS[n % b]]
  }

  function Zeros(z: nat): (s: string)
    ensures |s| == z
  {
    seq(z, i => '0')
  }

  lemma DivSmaller(n: nat, b: nat)
    requires IsBase(b) && b <= n
    ensures 0 < n / b < n
  {
    if b == 8 {
      assert 0 < n / 8 < n;
    } else if b == 10 {
      assert 0 < n / 10 < n;
    } else {
      assert 0 < n / 16 < n;
    }
  }

  /** Quotient and remainder are the unique `q`, `r` with `n == q * b + r`. */
  lemma DivMod(q: nat, r: nat, b: nat)
    requires IsBase(b) && r < b
    ensures (q * b + r) / b == q && (q * b + r) % b == r
  {
    if b == 8 {
      assert (q * 8 + r) / 8 == q && (q * 8 + r) % 8 == r;
    } else if b == 10 {
      assert (q * 10 + r) / 10 == q && (q * 10 + r) % 10 == r;
    } else {
      assert (q * 16 + r) / 16 == q && (q * 16 + r) % 16 == r;
    }
  }

  lemma DivModBack(n: nat, b: nat)
    requires IsBase(b)
    ensures n == n / b * b + n % b
  {
  }

  lemma DigitOf(d: nat)
    requires d < 16
    ensures DigitValue(DIGITS[d]) == d
  {
  }

  lemma OfDigit(c: char)
    requires DigitValue(c) < 16
    ensures DIGITS[DigitValue(c)] == c
  {
    var d := DigitValue(c);
    assert d < |DIGITS|;
    if c <= '9' {
      assert forall i :: 0 <= i < 10 ==> DIGITS[i] as int == '0' as int + i;
    } else {
      assert forall i :: 10 <= i < 16 ==> DIGITS[i] as int == 'a' as int + i - 10;
    }
  }

  lemma {:induction false} ValueOfZeros(z: nat, b: nat)
    ensures Value(Zeros(z), b) == 0
  {
    if z > 0 {
      assert Zeros(z)[..z - 1] == Zeros(z - 1);
      ValueOfZeros(z - 1, b);
    }
  }

  /** Appending a digit shifts the value by one place. */
  lemma ValueAppend(s: string, d: nat, b: nat)
    requires IsBase(b) && d < b
    ensures Value(s + [DIGITS[d]], b) == Value(s, b) * b + d
  {
    DigitOf(d);
    assert (s + [DIGITS[d]])[..|s|] == s;
  }

  /** Reading back a padded shortest numeral gives the number. */
  lemma {:induction false} ValueOfRepr(z: nat, n: nat, b: nat)
    requires IsBase(b)
    ensures AllDigits(Zeros(z) + Repr(n, b), b)
    ensures Value(Zeros(z) + Repr(n, b), b) == n
    decreases n
  {
    if n < b {
      ValueAppend(Zeros(z), n, b);
      ValueOfZeros(z, b);
    } else {
      DivSmaller(n, b);
      ValueOfRepr(z, n / b, b);
      ValueAppend(Zeros(z) + Repr(n / b, b), n % b, b);
      assert Zeros(z) + Repr(n, b) == Zeros(z) + Repr(n / b, b) + [DIGITS[n % b]];
      DivModBack(n, b);
    }
  }

  lemma ReprAppend(v: nat, d: nat, b: nat)
    requires IsBase(b) && d < b && v > 0
    ensures Repr(v * b + d, b) == Repr(v, b) + [DIGITS[d]]
  {
    DivMod(v, d, b);
    assert v * b + d >= b;
  }

  lemma OneDigit(s: string, d: nat, b: nat)
    requires IsBase(b) && d < b && Value(s, b) == 0
    ensures Value(s + [DIGITS[d]], b) == d && Repr(d, b) == [DIGITS[d]]
  {
    ValueAppend(s, d, b);
  }

  predicate IsPaddedRepr(s: string, v: nat, b: nat)
    requires IsBase(b)
  {
    |Repr(v, b)| <= |s| && s == Zeros(|s| - |Repr(v, b)|) + Repr(v, b)
  }

  lemma PaddedAppend(t: string, v: nat, d: nat, b: nat)
    requires IsBase(b) && d < b && IsPaddedRepr(t, v, b)
    ensures IsPaddedRepr(t + [DIGITS[d]], v * b + d, b)
  {
    var s := t + [DIGITS[d]];
    if v > 0 {
      ReprAppend(v, d, b);
      assert Repr(v * b + d, b) == Repr(v, b) + [DIGITS[d]];
      assert s == Zeros(|t| - |Repr(v, b)|) + (Repr(v, b) + [DIGITS[d]]);
    } else {
      assert v * b + d == d;
      assert Repr(0, b) == "0" && Repr(d, b) == [DIGITS[d]];
      assert t == Zeros(|t|);
      assert s == Zeros(|s| - 1) + [DIGITS[d]];
    }
  }

  lemma ValueSplits(s: string, b: nat) returns (t: string, d: nat)
    requires IsBase(b) && s != "" && AllDigits(s, b)
    ensures d < b && AllDigits(t, b) && s == t + [DIGITS[d]] && |t| == |s| - 1
    ensures Value(s, b) == Value(t, b) * b + d
  {
    t, d := s[..|s| - 1], DigitValue(s[|s| - 1]);
    OfDigit(s[|s| - 1]);
  }

  /** Every non-empty digit string is the shortest numeral of its value behind some zeros. */
  lemma {:induction false} ReprOfValue(s: string, b: nat)
    requires IsBase(b) && s != "" && AllDigits(s, b)
    ensures IsPaddedRepr(s, Value(s, b), b)
    decreases |s|
  {
    var t, d := ValueSplits(s, b);
    if t == "" {
      OneDigit(t, d, b);
      assert s == Zeros(0) + s;
    } else {
      ReprOfValue(t, b);
      PaddedAppend(t, Value(t, b), d, b);
    }
  }

  /** Only zero's numeral starts with the digit zero. */
  lemma {:induction false} ReprHead(n: nat, b: nat)
    requires IsBase(b)
    ensures Repr(n, b)[0] == '0' <==> n == 0
    decreases n
  {
    if n < b {
      DigitOf(n);
    } else {
      DivSmaller(n, b);
      ReprHead(n / b, b);
    }
  }

  function Pow(b: nat, k: nat): nat {
    if k == 0 then 1 else b * Pow(b, k - 1)
  }

  lemma DivBelow(n: nat, b: nat, p: nat)
    requires IsBase(b) && n < b * p
    ensures n / b < p
  {
    if b == 8 {
    } else if b == 10 {
    } else {
    }
  }

  lemma AppendBelow(n: nat, d: nat, b: nat, p: nat)
    requires IsBase(b) && d < b && n < p
    ensures n * b + d < b * p
  {
    if b == 8 {
    } else if b == 10 {
    } else {
    }
  }

  /** A number below `b^k` needs at most `k` digits. */
  lemma {:induction false} ReprLength(n: nat, b: nat, k: nat)
    requires IsBase(b) && 1 <= k && n < Pow(b, k)
    ensures |Repr(n, b)| <= k
    decreases k
  {
    if n >= b {
      DivSmaller(n, b);
      DivBelow(n, b, Pow(b, k - 1));
      if k > 1 {
        ReprLength(n / b, b, k - 1);
      }
    }
  }

  /** A digit string of length `k` denotes a number below `b^k`. */
  lemma {:induction false} ValueBound(s: string, b: nat)
    requires IsBase(b) && AllDigits(s, b)
    ensures Value(s, b) < Pow(b, |s|)
  {
    if s != "" {
      var t := s[..|s| - 1];
      ValueBound(t, b);
      AppendBelow(Value(t, b), DigitValue(s[|t|]), b, Pow(b, |t|));
    }
  }
}
