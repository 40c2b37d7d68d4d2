/** Decimal digits in byte strings. */
module Decimals {
  import opened Bytes

  const ZERO: Byte := 48

  predicate Digit(b: Byte) {
    48 <= b <= 57
  }

  predicate Digits(s: ByteString) {
    forall i | 0 <= i < |s| :: Digit(s[i])
  }

  /** How many digits the text begins with. */
  function Span(s: ByteString): (n: nat)
    ensures n <= |s| && Digits(s[..n]) && (n < |s| ==> !Digit(s[n]))
  {
    if s == [] || !Digit(s[0]) then 0 else 1 + Span(s[1..])
  }

  lemma {:induction false} SpanOf(digits: ByteString, x: ByteString)
    requires Digits(digits) && (x == [] || !Digit(x[0]))
    ensures Span(digits + x) == |digits|
    decreases |digits|
  {
    if digits == [] {
      assert digits + x == x;
    } else {
      SpanOf(digits[1..], x);
      assert (digits + x)[0] == digits[0] && (digits + x)[1..] == digits[1..] + x;
    }
  }

  lemma AllSpan(s: ByteString)
    requires Span(s) == |s|
    ensures Digits(s)
  {
    hide Span;
    assert s[..|s|] == s;
  }

  /** The number a string of digits stands for. */
  function Nat(s: ByteString): (n: nat)
    requires Digits(s)
  {
    if s == [] then 0 else 10 * Nat(s[..|s| - 1]) + (s[|s| - 1] - 48)
  }

  lemma NatLast(s: ByteString, d: Byte)
    requires Digits(s) && Digit(d)
    ensures Digits(s + [d]) && Nat(s + [d]) == 10 * Nat(s) + (d - 48)
  {
    assert (s + [d])[..|s|] == s;
  }

  lemma {:induction false} NatLeadingZero(s: ByteString)
    requires Digits(s)
    ensures Digits([ZERO] + s) && Nat([ZERO] + s) == Nat(s)
    decreases |s|
  {
    if s == [] {
      assert [ZERO] + s == [ZERO] && [ZERO][..0] == [];
    } else {
      var init := s[..|s| - 1];
      NatLeadingZero(init);
      assert [ZERO] + s == ([ZERO] + init) + [s[|s| - 1]];
      NatLast([ZERO] + init, s[|s| - 1]);
    }
  }

  lemma {:induction false} NatPositive(s: ByteString, i: nat)
    requires Digits(s) && i < |s| && s[i] != ZERO
    ensures Nat(s) > 0
    decreases |s|
  {
    if i < |s| - 1 {
      NatPositive(s[..|s| - 1], i);
    }
  }

  /** Without leading zeros the digits are determined by the number. */
  lemma {:induction false} NatInjective(a: ByteString, b: ByteString)
    requires Digits(a) && Digits(b) && Nat(a) == Nat(b)
    requires (a != [] ==> a[0] != ZERO) && (b != [] ==> b[0] != ZERO)
    ensures a == b
    decreases |a|
  {
    if a == [] {
      if b != [] {
        NatPositive(b, 0);
      }
    } else if b == [] {
      NatPositive(a, 0);
    } else {
      var p, q := a[..|a| - 1], b[..|b| - 1];
      assert Nat(a) == 10 * Nat(p) + (a[|a| - 1] - 48) && Nat(b) == 10 * Nat(q) + (b[|b| - 1] - 48);
      NatInjective(p, q);
      assert a == p + [a[|a| - 1]] && b == q + [b[|b| - 1]];
    }
  }

  lemma {:induction false} NatPrefix(d: ByteString, i: nat)
    requires Digits(d) && i <= |d|
    ensures Nat(d[..i]) <= Nat(d) && (i < |d| ==> 10 * Nat(d[..i]) <= Nat(d))
    decreases |d|
  {
    if i == |d| {
      assert d[..i] == d;
    } else {
      var init := d[..|d| - 1];
      NatPrefix(init, i);
      assert init[..i] == d[..i];
    }
  }

  lemma {:induction false} NatOfZeros(d: ByteString)
    requires Digits(d) && forall i | 0 <= i < |d| :: d[i] == ZERO
    ensures Nat(d) == 0
    decreases |d|
  {
    if d != [] {
      NatOfZeros(d[..|d| - 1]);
    }
  }

  /** std::to_string of a natural number. */
  function DigitsOf(n: nat): (r: ByteString)
    ensures Digits(r) && r != []
  {
    if n < 10 then [48 + n] else DigitsOf(n / 10) + [48 + n % 10]
  }

  lemma {:induction false} DigitsOfNat(n: nat)
    ensures Nat(DigitsOf(n)) == n
    decreases n
  {
    if n < 10 {
      assert DigitsOf(n)[..0] == [];
    } else {
      DigitsOfNat(n / 10);
      NatLast(DigitsOf(n / 10), 48 + n % 10);
    }
  }

  lemma DigitsButLast(n: nat)
    ensures var d := DigitsOf(n); Nat(d[..|d| - 1]) == n / 10
  {
    if n >= 10 {
      assert DigitsOf(n)[..|DigitsOf(n)| - 1] == DigitsOf(n / 10);
      DigitsOfNat(n / 10);
    }
  }

  function Pow10(k: nat): (r: nat) {
    if k == 0 then 1 else 10 * Pow10(k - 1)
  }

  lemma {:induction false} Pow10Adds(a: nat, b: nat)
    ensures Pow10(a + b) == Pow10(a) * Pow10(b)
    decreases b
  {
    if b > 0 {
      Pow10Adds(a, b - 1);
    }
  }

  lemma {:induction false} DigitsWithin(n: nat, k: nat)
    requires k > 0 && n < Pow10(k)
    ensures |DigitsOf(n)| <= k
    decreases k
  {
    if n >= 10 {
      DigitsWithin(n / 10, k - 1);
    }
  }

  /** The digits from position i on, and where they end. */
  method ScanDigits(s: ByteString, i: nat) returns (digits: ByteString, j: nat)
    requires i <= |s|
    ensures j == i + Span(s[i..]) && j <= |s| && digits == s[i..j]
  {
    j, digits := i, [];
    while j < |s| && Digit(s[j])
      invariant i <= j <= |s| && digits == s[i..j]
      invariant Span(s[i..]) == j - i + Span(s[j..])
    {
      assert s[j..][1..] == s[j + 1..];
      digits := digits + [s[j]];
      j := j + 1;
    }
  }
}
