/** normalize_number, the canonical spelling of a DynamoDB number (src/json/serializer.cpp). */
module Numbers {
  import opened Bytes
  import opened Decimals

  const PLUS: Byte := 43
  const MINUS: Byte := 45
  const DOT: Byte := 46
  const BIG_E: Byte := 69
  const SMALL_E: Byte := 101

  /** The exponent scan stops once its value is past this. */
  const EXPONENT_STOP: nat := 100000
  const MAX_PLAIN: nat := 40

  // ---- Numerals ------------------------------------------------------------------------------------

  datatype Exponent = Exponent(letter: Byte, sign: Option<Byte>, digits: ByteString)

  datatype Numeral = Numeral(sign: Option<Byte>, ints: ByteString, dot: bool, frac: ByteString, exp: Option<Exponent>)

  predicate GoodSign(sign: Option<Byte>) {
    sign.Some? ==> sign.value == PLUS || sign.value == MINUS
  }

  predicate GoodExponent(e: Exponent) {
    (e.letter == BIG_E || e.letter == SMALL_E) && GoodSign(e.sign) && Digits(e.digits) && e.digits != []
  }

  /** What counts as a number: some digits, perhaps a point among them, perhaps a sign, perhaps an exponent. */
  predicate WellFormed(n: Numeral) {
    && GoodSign(n.sign) && Digits(n.ints) && Digits(n.frac) && n.ints + n.frac != [] && (!n.dot ==> n.frac == [])
    && (n.exp.Some? ==> GoodExponent(n.exp.value))
  }

  function SpellSign(sign: Option<Byte>): (r: ByteString) {
    match sign case None => [] case Some(b) => [b]
  }

  function SpellPoint(dot: bool, frac: ByteString): (r: ByteString) {
    if dot then [DOT] + frac else []
  }

  function SpellExponent(exp: Option<Exponent>): (r: ByteString) {
    match exp case None => [] case Some(e) => [e.letter] + (SpellSign(e.sign) + e.digits)
  }

  /** The text of a numeral. */
  function Spell(n: Numeral): (r: ByteString) {
    SpellSign(n.sign) + (n.ints + (SpellPoint(n.dot, n.frac) + SpellExponent(n.exp)))
  }

  // ---- Reading -------------------------------------------------------------------------------------

  predicate Signed(s: ByteString) {
    s != [] && (s[0] == PLUS || s[0] == MINUS)
  }

  function ReadSign(s: ByteString): (r: (Option<Byte>, ByteString)) {
    if Signed(s) then (Some(s[0]), s[1..]) else (None, s)
  }

  function ReadPoint(s: ByteString): (r: (bool, ByteString, ByteString)) {
    if s != [] && s[0] == DOT then
      var n := Span(s[1..]);
      (true, s[1..][..n], s[1..][n..])
    else (false, [], s)
  }

  /** The exponent has to be the rest of the text. */
  function ReadExponent(s: ByteString): (r: Option<Option<Exponent>>) {
    if s == [] then Some(None)
    else if s[0] != BIG_E && s[0] != SMALL_E then None
    else
      var (sign, digits) := ReadSign(s[1..]);
      if digits == [] || Span(digits) != |digits| then None else Some(Some(Exponent(s[0], sign, digits)))
  }

  function Read(s: ByteString): (r: Option<Numeral>) {
    var (sign, s1) := ReadSign(s);
    var n := Span(s1);
    var (dot, frac, s2) := ReadPoint(s1[n..]);
    if s1[..n] == [] && frac == [] then None
    else match ReadExponent(s2)
      case None => None
      case Some(exp) => Some(Numeral(sign, s1[..n], dot, frac, exp))
  }

  lemma SignReads(sign: Option<Byte>, x: ByteString)
    requires GoodSign(sign) && !Signed(x)
    ensures ReadSign(SpellSign(sign) + x) == (sign, x)
  {
    if sign.Some? {
      assert (SpellSign(sign) + x)[1..] == x;
    } else {
      assert SpellSign(sign) + x == x;
    }
  }

  lemma PointReads(dot: bool, frac: ByteString, x: ByteString)
    requires Digits(frac) && (!dot ==> frac == []) && (x == [] || (!Digit(x[0]) && x[0] != DOT))
    ensures ReadPoint(SpellPoint(dot, frac) + x) == (dot, frac, x)
  {
    hide Span;
    var s := SpellPoint(dot, frac) + x;
    if dot {
      assert s[0] == DOT && s[1..] == frac + x;
      SpanOf(frac, x);
      assert (frac + x)[..|frac|] == frac && (frac + x)[|frac|..] == x;
    } else {
      assert s == x;
    }
  }

  lemma ExponentReads(exp: Option<Exponent>)
    requires exp.Some? ==> GoodExponent(exp.value)
    ensures ReadExponent(SpellExponent(exp)) == Some(exp)
  {
    hide Span, ReadSign, SpellSign;
    if exp.Some? {
      var e := exp.value;
      var s := SpellExponent(exp);
      assert s[1..] == SpellSign(e.sign) + e.digits;
      SignReads(e.sign, e.digits);
      SpanOf(e.digits, []);
      assert e.digits + [] == e.digits;
    }
  }

  lemma AfterInts(dot: bool, frac: ByteString, exp: Option<Exponent>)
    requires exp.Some? ==> GoodExponent(exp.value)
    ensures var x := SpellPoint(dot, frac) + SpellExponent(exp); x == [] || (!Digit(x[0]) && !Signed(x))
    ensures var x := SpellExponent(exp); x == [] || (!Digit(x[0]) && x[0] != DOT)
  {
    hide SpellSign;
  }

  /** Every numeral is read back from its text. */
  lemma SpelledIsRead(n: Numeral)
    requires WellFormed(n)
    ensures Read(Spell(n)) == Some(n)
  {
    hide Span, SpellSign, SpellPoint, SpellExponent, ReadSign, ReadPoint, ReadExponent, GoodExponent;
    var x := SpellPoint(n.dot, n.frac) + SpellExponent(n.exp);
    AfterInts(n.dot, n.frac, n.exp);
    var s1 := n.ints + x;
    assert !Signed(s1);
    SignReads(n.sign, s1);
    SpanOf(n.ints, x);
    assert s1[..|n.ints|] == n.ints && s1[|n.ints|..] == x;
    PointReads(n.dot, n.frac, SpellExponent(n.exp));
    ExponentReads(n.exp);
  }

  /** Whatever is read is a numeral, and the text is its spelling. */
  lemma ReadIsSpelled(s: ByteString)
    requires Read(s).Some?
    ensures WellFormed(Read(s).value) && Spell(Read(s).value) == s
  {
    hide Span, ReadSign, SpellSign, ReadPoint, SpellPoint, ReadExponent, SpellExponent, GoodExponent;
    var n := Read(s).value;
    var (sign, s1) := ReadSign(s);
    SignSpelled(s);
    var k := Span(s1);
    assert s1 == s1[..k] + s1[k..];
    var (dot, frac, s2) := ReadPoint(s1[k..]);
    PointSpelled(s1[k..]);
    ExponentSpelled(s2);
  }

  lemma PointSpelled(s: ByteString)
    ensures var (dot, frac, x) := ReadPoint(s);
            s == SpellPoint(dot, frac) + x && Digits(frac) && (!dot ==> frac == [])
  {
    hide Span;
    if s != [] && s[0] == DOT {
      var n := Span(s[1..]);
      assert s == [DOT] + s[1..][..n] + s[1..][n..];
    }
  }

  lemma ExponentSpelled(s: ByteString)
    requires ReadExponent(s).Some?
    ensures var exp := ReadExponent(s).value;
            s == SpellExponent(exp) && (exp.Some? ==> GoodExponent(exp.value))
  {
    hide Span, ReadSign, SpellSign;
    if s != [] {
      SignSpelled(s[1..]);
      AllSpan(ReadSign(s[1..]).1);
      assert s == [s[0]] + s[1..];
    }
  }

  lemma SignSpelled(s: ByteString)
    ensures s == SpellSign(ReadSign(s).0) + ReadSign(s).1 && GoodSign(ReadSign(s).0)
  {
  }

  // ---- What a numeral denotes ----------------------------------------------------------------------

  /** m times ten to the e. */
  ghost function Scaled(m: int, e: int): (r: real)
    decreases if e < 0 then -e else e
  {
    if e == 0 then m as real else if e > 0 then 10.0 * Scaled(m, e - 1) else Scaled(m, e + 1) / 10.0
  }

  lemma ScaledUp(m: int, e: int)
    ensures Scaled(m, e + 1) == 10.0 * Scaled(m, e)
  {
  }

  lemma {:induction false} ScaledTen(m: int, e: int)
    ensures Scaled(10 * m, e) == 10.0 * Scaled(m, e)
    decreases if e < 0 then -e else e
  {
    if e > 0 {
      ScaledTen(m, e - 1);
    } else if e < 0 {
      ScaledTen(m, e + 1);
    }
  }

  /** A zero moved between the coefficient and the exponent. */
  lemma ZeroMoves(m: int, e: int)
    ensures Scaled(10 * m, e) == Scaled(m, e + 1)
  {
    ScaledTen(m, e);
    ScaledUp(m, e);
  }

  lemma {:induction false} ScaledSign(m: int, e: int)
    ensures (m > 0 <==> Scaled(m, e) > 0.0) && (m < 0 <==> Scaled(m, e) < 0.0)
    ensures Scaled(-m, e) == -Scaled(m, e)
    decreases if e < 0 then -e else e
  {
    if e > 0 {
      ScaledSign(m, e - 1);
    } else if e < 0 {
      ScaledSign(m, e + 1);
    }
  }

  lemma {:induction false} ScaledInjective(m: int, n: int, e: int)
    requires Scaled(m, e) == Scaled(n, e)
    ensures m == n
    decreases if e < 0 then -e else e
  {
    if e > 0 {
      ScaledInjective(m, n, e - 1);
    } else if e < 0 {
      ScaledInjective(m, n, e + 1);
    }
  }

  function WithSign(neg: bool, n: int): (r: int) {
    if neg then -n else n
  }

  function Exp(exp: Option<Exponent>): (e: int)
    requires exp.Some? ==> Digits(exp.value.digits)
  {
    if exp.None? then 0 else WithSign(exp.value.sign == Some(MINUS), Nat(exp.value.digits))
  }

  ghost function ValueOf(neg: bool, digits: ByteString, e: int): (r: real)
    requires Digits(digits)
  {
    Scaled(WithSign(neg, Nat(digits)), e)
  }

  ghost function NumeralValue(n: Numeral): (r: real)
    requires WellFormed(n)
  {
    ValueOf(n.sign == Some(MINUS), n.ints + n.frac, Exp(n.exp) - |n.frac|)
  }

  /** The real number a text denotes, if it is a number. */
  ghost function Denotes(s: ByteString): (r: Option<real>) {
    if Read(s).None? then None
    else
      ReadIsSpelled(s);
      Some(NumeralValue(Read(s).value))
  }

  // ---- Arithmetic of digit strings -----------------------------------------------------------------

  function Zeros(n: nat): (r: ByteString)
    ensures |r| == n && Digits(r) && forall i | 0 <= i < n :: r[i] == ZERO
  {
    seq(n, i => ZERO)
  }

  lemma {:induction false} NatZerosBefore(n: nat, s: ByteString)
    requires Digits(s)
    ensures Digits(Zeros(n) + s) && Nat(Zeros(n) + s) == Nat(s)
    decreases n
  {
    if n == 0 {
      assert Zeros(n) + s == s;
    } else {
      NatZerosBefore(n - 1, s);
      NatLeadingZero(Zeros(n - 1) + s);
      assert Zeros(n) + s == [ZERO] + (Zeros(n - 1) + s);
    }
  }

  /** Zeros written out behind the digits stand for the exponent. */
  lemma {:induction false} ZerosBehind(neg: bool, s: ByteString, n: nat, e: int)
    requires Digits(s)
    ensures Digits(s + Zeros(n)) && ValueOf(neg, s + Zeros(n), e) == ValueOf(neg, s, e + n)
    decreases n
  {
    hide Scaled;
    if n == 0 {
      assert s + Zeros(n) == s;
    } else {
      var t := s + Zeros(n - 1);
      assert s + Zeros(n) == t + [ZERO];
      ZerosBehind(neg, s, n - 1, e + 1);
      NatLast(t, ZERO);
      ZeroMoves(WithSign(neg, Nat(t)), e);
    }
  }

  // ---- The canonical form --------------------------------------------------------------------------

  /** The exponent scan: it stops as soon as the value is past the bound. */
  function CappedFrom(value: nat, digits: ByteString): (r: nat)
    requires Digits(digits)
    decreases |digits|
  {
    if digits == [] then value
    else
      var next := 10 * value + (digits[0] - 48);
      if next > EXPONENT_STOP then next else CappedFrom(next, digits[1..])
  }

  function CappedExp(exp: Option<Exponent>): (e: int)
    requires exp.Some? ==> Digits(exp.value.digits)
  {
    if exp.None? then 0 else WithSign(exp.value.sign == Some(MINUS), CappedFrom(0, exp.value.digits))
  }

  function StripLead(d: ByteString): (r: ByteString) {
    if |d| > 1 && d[0] == ZERO then StripLead(d[1..]) else d
  }

  function Trailing(d: ByteString): (n: nat)
    ensures n <= |d| && (d != [] ==> n < |d|)
  {
    if |d| > 1 && d[|d| - 1] == ZERO then Trailing(d[..|d| - 1]) + 1 else 0
  }

  lemma {:induction false} TrailingAre(d: ByteString)
    ensures d == d[..|d| - Trailing(d)] + Zeros(Trailing(d))
    decreases |d|
  {
    if |d| > 1 && d[|d| - 1] == ZERO {
      var init := d[..|d| - 1];
      TrailingAre(init);
      var n := Trailing(init);
      assert d[..|d| - (n + 1)] == init[..|init| - n];
      assert d == init + [ZERO] && Zeros(n + 1) == Zeros(n) + [ZERO];
    } else {
      assert d[..|d|] + Zeros(0) == d;
    }
  }

  /** A number with the point behind the last digit and no zeros to drop, or zero. */
  datatype Decimal = Nought | Decimal(neg: bool, digits: ByteString, exp: int)

  predicate Canonical(c: Decimal) {
    c.Decimal? ==> c.digits != [] && Digits(c.digits) && c.digits[0] != ZERO && c.digits[|c.digits| - 1] != ZERO
  }

  ghost function DecimalValue(c: Decimal): (r: real)
    requires Canonical(c)
  {
    if c.Nought? then 0.0 else ValueOf(c.neg, c.digits, c.exp)
  }

  function Reduce(neg: bool, digits: ByteString, e: int): (c: Decimal) {
    var d := StripLead(digits);
    if forall i | 0 <= i < |d| :: d[i] == ZERO then Nought
    else Decimal(neg, d[..|d| - Trailing(d)], e + Trailing(d))
  }

  lemma {:induction false} StripKeeps(d: ByteString)
    requires Digits(d)
    ensures Digits(StripLead(d)) && Nat(StripLead(d)) == Nat(d)
    ensures |StripLead(d)| > 1 ==> StripLead(d)[0] != ZERO
    decreases |d|
  {
    if |d| > 1 && d[0] == ZERO {
      StripKeeps(d[1..]);
      NatLeadingZero(d[1..]);
      assert d == [ZERO] + d[1..];
    }
  }

  lemma {:induction false} TrailingStops(d: ByteString)
    ensures var r := d[..|d| - Trailing(d)]; |r| > 1 ==> r[|r| - 1] != ZERO
    decreases |d|
  {
    if |d| > 1 && d[|d| - 1] == ZERO {
      TrailingStops(d[..|d| - 1]);
      assert d[..|d| - Trailing(d)] == d[..|d| - 1][..|d| - 1 - Trailing(d[..|d| - 1])];
    } else {
      assert d[..|d|] == d;
    }
  }

  /** Dropping zeros on both sides leaves the value and a canonical form. */
  lemma ReduceKeeps(neg: bool, digits: ByteString, e: int)
    requires Digits(digits) && digits != []
    ensures Canonical(Reduce(neg, digits, e)) && DecimalValue(Reduce(neg, digits, e)) == ValueOf(neg, digits, e)
  {
    hide Scaled, Nat, Trailing, StripLead;
    StripKeeps(digits);
    var d := StripLead(digits);
    StripSome(digits);
    ScaledSign(0, e);
    if forall i | 0 <= i < |d| :: d[i] == ZERO {
      NatOfZeros(d);
    } else {
      var n := Trailing(d);
      var r := d[..|d| - n];
      TrailingStops(d);
      TrailingAre(d);
      ZerosBehind(neg, r, n, e);
      var i :| 0 <= i < |d| && d[i] != ZERO;
      assert |r| == 1 ==> i == 0;
    }
  }

  lemma {:induction false} StripSome(d: ByteString)
    requires d != []
    ensures StripLead(d) != []
    decreases |d|
  {
    if |d| > 1 && d[0] == ZERO {
      StripSome(d[1..]);
    }
  }

  lemma {:induction false} Lowered(m: int, e: int, k: nat) returns (n: int)
    ensures Scaled(m, e + k) == Scaled(n, e) && (k > 0 ==> n % 10 == 0) && (k == 0 ==> n == m)
    decreases k
  {
    hide Scaled;
    if k == 0 {
      n := m;
    } else {
      var p := Lowered(m, e + 1, k - 1);
      ZeroMoves(p, e);
      n := 10 * p;
    }
  }

  lemma SameExponent(m: int, e: int, n: int, f: int)
    requires Scaled(m, e) == Scaled(n, f) && e >= f && n % 10 != 0
    ensures e == f && m == n
  {
    hide Scaled;
    var p := Lowered(m, f, e - f);
    ScaledInjective(p, n, f);
  }

  lemma LastDigit(neg: bool, d: ByteString)
    requires d != [] && Digits(d) && d[|d| - 1] != ZERO
    ensures WithSign(neg, Nat(d)) % 10 != 0
  {
    assert Nat(d) == 10 * Nat(d[..|d| - 1]) + (d[|d| - 1] - 48);
  }

  /** A value has one canonical form. */
  lemma CanonicalIsUnique(a: Decimal, b: Decimal)
    requires Canonical(a) && Canonical(b) && DecimalValue(a) == DecimalValue(b)
    ensures a == b
  {
    hide Scaled, Nat;
    if a.Decimal? {
      NatPositive(a.digits, 0);
      ScaledSign(WithSign(a.neg, Nat(a.digits)), a.exp);
      LastDigit(a.neg, a.digits);
    }
    if b.Decimal? {
      NatPositive(b.digits, 0);
      ScaledSign(WithSign(b.neg, Nat(b.digits)), b.exp);
      LastDigit(b.neg, b.digits);
    }
    if a.Decimal? && b.Decimal? {
      var m, n := WithSign(a.neg, Nat(a.digits)), WithSign(b.neg, Nat(b.digits));
      if a.exp >= b.exp {
        SameExponent(m, a.exp, n, b.exp);
      } else {
        SameExponent(n, b.exp, m, a.exp);
      }
      NatInjective(a.digits, b.digits);
    }
  }

  // ---- Writing -------------------------------------------------------------------------------------

  function Abs(e: int): (r: nat) {
    if e < 0 then -e else e
  }

  /** How many digits stand before the point. */
  function PointAt(c: Decimal): (r: int)
    requires c.Decimal?
  {
    |c.digits| + c.exp
  }

  /** Written without an exponent. */
  predicate Plain(c: Decimal)
    requires c.Decimal?
  {
    if c.exp >= 0 then c.exp <= MAX_PLAIN else PointAt(c) > 0 || -PointAt(c) <= MAX_PLAIN
  }

  function PlainBody(c: Decimal): (r: ByteString)
    requires c.Decimal? && c.digits != [] && Plain(c)
  {
    var p := PointAt(c);
    if c.exp >= 0 then c.digits + Zeros(c.exp)
    else if p > 0 then c.digits[..p] + [DOT] + c.digits[p..]
    else [ZERO, DOT] + Zeros(-p) + c.digits
  }

  function ScientificBody(c: Decimal): (r: ByteString)
    requires c.Decimal? && c.digits != []
  {
    var adjusted := PointAt(c) - 1;
    c.digits[..1] + (if |c.digits| > 1 then [DOT] + c.digits[1..] else [])
    + [BIG_E] + (if adjusted >= 0 then [PLUS] else [MINUS]) + DigitsOf(Abs(adjusted))
  }

  function Render(c: Decimal): (r: ByteString)
    requires Canonical(c)
  {
    if c.Nought? then [ZERO] else (if c.neg then [MINUS] else []) + if Plain(c) then PlainBody(c) else ScientificBody(c)
  }

  /** normalize_number. */
  function Normalize(s: ByteString): (r: ByteString) {
    match Read(s)
    case None => s
    case Some(n) =>
      ReadIsSpelled(s);
      Render(Canon(n))
  }

  function Canon(n: Numeral): (c: Decimal)
    requires WellFormed(n)
    ensures Canonical(c)
  {
    ReduceKeeps(n.sign == Some(MINUS), n.ints + n.frac, CappedExp(n.exp) - |n.frac|);
    Reduce(n.sign == Some(MINUS), n.ints + n.frac, CappedExp(n.exp) - |n.frac|)
  }

  // ---- What the written form denotes ---------------------------------------------------------------

  function Minus(neg: bool): (r: Option<Byte>) {
    if neg then Some(MINUS) else None
  }

  /** The numeral whose text is the canonical form. */
  function Written(c: Decimal): (n: Numeral)
    requires Canonical(c) && c.Decimal?
  {
    var p := PointAt(c);
    if !Plain(c) then
      Numeral(Minus(c.neg), c.digits[..1], |c.digits| > 1, c.digits[1..],
              Some(Exponent(BIG_E, Some(if p >= 1 then PLUS else MINUS), DigitsOf(Abs(p - 1)))))
    else if c.exp >= 0 then Numeral(Minus(c.neg), c.digits + Zeros(c.exp), false, [], None)
    else if p > 0 then Numeral(Minus(c.neg), c.digits[..p], true, c.digits[p..], None)
    else Numeral(Minus(c.neg), [ZERO], true, Zeros(-p) + c.digits, None)
  }

  lemma WrittenIsSpelled(c: Decimal)
    requires Canonical(c) && c.Decimal?
    ensures WellFormed(Written(c)) && Spell(Written(c)) == Render(c)
  {
    hide DigitsOf, Zeros;
    var n, p := Written(c), PointAt(c);
    if !Plain(c) {
      var tail := SpellExponent(n.exp);
      assert tail == [BIG_E] + ([if p >= 1 then PLUS else MINUS] + DigitsOf(Abs(p - 1)));
      assert ScientificBody(c) == n.ints + (SpellPoint(n.dot, n.frac) + tail);
    } else if c.exp >= 0 {
      assert PlainBody(c) == n.ints + ([] + []);
    } else if p > 0 {
      assert PlainBody(c) == n.ints + (([DOT] + n.frac) + []);
    } else {
      assert PlainBody(c) == n.ints + (([DOT] + n.frac) + []);
    }
  }

  lemma WrittenValue(c: Decimal)
    requires Canonical(c) && c.Decimal? && WellFormed(Written(c))
    ensures NumeralValue(Written(c)) == DecimalValue(c)
  {
    hide Scaled, Nat, DigitsOf, WellFormed;
    var n, p := Written(c), PointAt(c);
    if !Plain(c) {
      assert n.ints + n.frac == c.digits;
      DigitsOfNat(Abs(p - 1));
    } else if c.exp >= 0 {
      assert n.ints + n.frac == c.digits + Zeros(c.exp);
      ZerosBehind(c.neg, c.digits, c.exp, 0);
    } else if p > 0 {
      assert n.ints + n.frac == c.digits;
    } else {
      assert n.ints + n.frac == Zeros(-p + 1) + c.digits;
      NatZerosBefore(-p + 1, c.digits);
    }
  }

  lemma RenderDenotes(c: Decimal)
    requires Canonical(c)
    ensures Read(Render(c)).Some? && Denotes(Render(c)) == Some(DecimalValue(c))
  {
    hide Read, Spell, WellFormed, Scaled, Canonical;
    if c.Nought? {
      NoughtDenotes();
    } else {
      WrittenIsSpelled(c);
      SpelledIsRead(Written(c));
      WrittenValue(c);
    }
  }

  lemma NoughtDenotes()
    ensures Read([ZERO]) == Some(Numeral(None, [ZERO], false, [], None))
    ensures Denotes([ZERO]) == Some(0.0)
  {
    var n := Numeral(None, [ZERO], false, [], None);
    assert Spell(n) == [ZERO];
    SpelledIsRead(n);
    assert n.ints + n.frac == [ZERO];
    NatOfZeros([ZERO]);
  }

  // ---- The theorems --------------------------------------------------------------------------------

  /** The exponent's digits, but for the last, are not past the scan's bound. */
  predicate ExponentFits(exp: Option<Exponent>)
    requires exp.Some? ==> GoodExponent(exp.value)
  {
    exp.Some? ==> Nat(exp.value.digits[..|exp.value.digits| - 1]) <= EXPONENT_STOP
  }

  /** The capped scan is exact as long as only the last digit can take it past the bound. */
  lemma {:induction false} CappedWalk(d: ByteString, i: nat)
    requires Digits(d) && i < |d| && Nat(d[..i]) <= EXPONENT_STOP
    ensures if Nat(d[..|d| - 1]) <= EXPONENT_STOP then CappedFrom(Nat(d[..i]), d[i..]) == Nat(d)
            else CappedFrom(Nat(d[..i]), d[i..]) < Nat(d)
    decreases |d| - i
  {
    hide Nat;
    NatLast(d[..i], d[i]);
    assert d[..i + 1] == d[..i] + [d[i]] && d[i..][1..] == d[i + 1..];
    if i + 1 == |d| {
      assert d[..i + 1] == d && d[i + 1..] == [];
    } else {
      NatPrefix(d[..|d| - 1], i + 1);
      assert d[..|d| - 1][..i + 1] == d[..i + 1];
      NatPrefix(d, i + 1);
      if Nat(d[..i + 1]) <= EXPONENT_STOP {
        CappedWalk(d, i + 1);
      }
    }
  }

  lemma CappedIff(exp: Option<Exponent>)
    requires exp.Some? ==> GoodExponent(exp.value)
    ensures CappedExp(exp) == Exp(exp) <==> ExponentFits(exp)
  {
    if exp.Some? {
      var d := exp.value.digits;
      assert d[..0] == [] && d[0..] == d;
      CappedWalk(d, 0);
    }
  }

  lemma {:induction false} ScaledGrows(m: int, e: int, k: nat)
    requires m > 0 && k > 0
    ensures Scaled(m, e + k) > Scaled(m, e)
    decreases k
  {
    hide Scaled;
    ScaledSign(m, e + k - 1);
    ScaledUp(m, e + k - 1);
    if k > 1 {
      ScaledGrows(m, e, k - 1);
    }
  }

  lemma ScaledSame(m: int, e: int, f: int)
    ensures Scaled(m, e) == Scaled(m, f) <==> m == 0 || e == f
  {
    hide Scaled;
    ScaledSign(m, e);
    ScaledSign(m, f);
    var a := Abs(m);
    if m != 0 && e != f {
      if e > f {
        ScaledGrows(a, f, e - f);
      } else {
        ScaledGrows(a, e, f - e);
      }
      ScaledSign(a, e);
      ScaledSign(a, f);
    }
  }

  /** Texts whose exponent the scan reads in full, and zero in any spelling. */
  ghost predicate Kept(s: ByteString) {
    Read(s).Some? &&
    var n := Read(s).value;
    WellFormed(n) && (Nat(n.ints + n.frac) == 0 || ExponentFits(n.exp))
  }

  /** Anything that is not a number is left alone. */
  lemma JunkIsLeft(s: ByteString)
    requires forall n | WellFormed(n) :: Spell(n) != s
    ensures Normalize(s) == s
  {
    if Read(s).Some? {
      ReadIsSpelled(s);
    }
  }

  lemma NormalDenotes(s: ByteString)
    requires Read(s).Some?
    ensures WellFormed(Read(s).value)
    ensures var n := Read(s).value;
            Denotes(Normalize(s)) == Some(ValueOf(n.sign == Some(MINUS), n.ints + n.frac, CappedExp(n.exp) - |n.frac|))
  {
    hide Read, Spell, Scaled, Render, Reduce, Nat;
    ReadIsSpelled(s);
    var n := Read(s).value;
    ReduceKeeps(n.sign == Some(MINUS), n.ints + n.frac, CappedExp(n.exp) - |n.frac|);
    RenderDenotes(Canon(n));
  }

  /** The value survives exactly when the exponent scan reads the whole exponent, or the number is zero. */
  lemma ValueKeptIff(s: ByteString)
    requires Read(s).Some?
    ensures Denotes(Normalize(s)) == Denotes(s) <==> Kept(s)
  {
    hide Read, Spell, Normalize, Scaled, Nat;
    NormalDenotes(s);
    var n := Read(s).value;
    CappedIff(n.exp);
    ScaledSame(WithSign(n.sign == Some(MINUS), Nat(n.ints + n.frac)), CappedExp(n.exp) - |n.frac|,
        Exp(n.exp) - |n.frac|);
  }

  /** Two numbers get the same spelling exactly when they are equal. */
  lemma SameSpellingIff(a: ByteString, b: ByteString)
    requires Kept(a) && Kept(b)
    ensures Normalize(a) == Normalize(b) <==> Denotes(a) == Denotes(b)
  {
    hide Read, Spell, Render, Canonical, Scaled, Nat;
    ValueKeptIff(a);
    ValueKeptIff(b);
    var c, d := Canon(Read(a).value), Canon(Read(b).value);
    RenderDenotes(c);
    RenderDenotes(d);
    if Denotes(a) == Denotes(b) {
      CanonicalIsUnique(c, d);
    }
  }

  /** Canonical forms that the scan reads back in full. */
  predicate Settled(c: Decimal) {
    c.Nought? || Plain(c) || Abs(PointAt(c) - 1) / 10 <= EXPONENT_STOP
  }

  lemma SettledIsKept(c: Decimal)
    requires Canonical(c)
    ensures Kept(Render(c)) <==> Settled(c)
  {
    hide Read, Spell, WellFormed, Scaled, Nat, DigitsOf, Render;
    if c.Nought? {
      NoughtIsKept(c);
    } else {
      var n := Written(c);
      WrittenIsSpelled(c);
      SpelledIsRead(n);
      WrittenValue(c);
      NatPositive(c.digits, 0);
      ScaledSign(WithSign(c.neg, Nat(c.digits)), c.exp);
      ScaledSign(0, Exp(n.exp) - |n.frac|);
      DigitsButLast(Abs(PointAt(c) - 1));
    }
  }

  lemma NoughtIsKept(c: Decimal)
    requires c.Nought?
    ensures Kept(Render(c))
  {
    hide Read;
    NoughtDenotes();
  }

  /**
   A numeral that is zero, or has its first significant digit and its last non-zero one where they are written out
   plainly, or its first significant digit at a place whose number, without its last digit, is not past the bound.
   */
  predicate Final(n: Numeral)
    requires WellFormed(n)
  {
    var d, e := StripLead(n.ints + n.frac), CappedExp(n.exp) - |n.frac|;
    var point, last := |d| + e, e + Trailing(d);
    || (forall i | 0 <= i < |d| :: d[i] == ZERO)
    || (if last >= 0 then last <= MAX_PLAIN else point > 0 || -point <= MAX_PLAIN)
    || Abs(point - 1) / 10 <= EXPONENT_STOP
  }

  lemma FinalSettles(n: Numeral)
    requires WellFormed(n)
    ensures Settled(Canon(n)) <==> Final(n)
  {
    hide StripLead, Trailing, CappedExp, Nat, Scaled;
  }

  /** Normalising twice is normalising once, exactly for those numerals. */
  lemma IdempotentIff(s: ByteString)
    requires Read(s).Some?
    ensures WellFormed(Read(s).value)
    ensures Normalize(Normalize(s)) == Normalize(s) <==> Final(Read(s).value)
  {
    hide Read, Spell, Render, Canonical, Settled, Scaled, Nat, Kept, Final;
    ReadIsSpelled(s);
    FinalSettles(Read(s).value);
    var c := Canon(Read(s).value);
    var t := Render(c);
    RenderDenotes(c);
    SettledIsKept(c);
    ValueKeptIff(t);
    ReadIsSpelled(t);
    var again := Canon(Read(t).value);
    RenderDenotes(again);
    if Settled(c) {
      CanonicalIsUnique(again, c);
    }
  }

  lemma {:induction false} StripShortens(d: ByteString)
    ensures |StripLead(d)| <= |d|
    decreases |d|
  {
    if |d| > 1 && d[0] == ZERO {
      StripShortens(d[1..]);
    }
  }

  /** Exponents and mantissas of ordinary size: the value survives and the form is final. */
  lemma OrdinaryNumbers(s: ByteString)
    requires Read(s).Some?
    requires var n := Read(s).value;
             WellFormed(n) && |n.ints + n.frac| <= EXPONENT_STOP && Abs(Exp(n.exp)) <= EXPONENT_STOP
    ensures Denotes(Normalize(s)) == Denotes(s) && Normalize(Normalize(s)) == Normalize(s)
  {
    hide Read, Spell, Normalize, Scaled, Nat, Denotes, StripLead, Trailing;
    var n := Read(s).value;
    if n.exp.Some? {
      NatPrefix(n.exp.value.digits, |n.exp.value.digits| - 1);
    }
    CappedIff(n.exp);
    ValueKeptIff(s);
    IdempotentIff(s);
    StripShortens(n.ints + n.frac);
  }

  // ---- Which numbers are written out ---------------------------------------------------------------

  /** Zero, a whole number that ends in at most 40 zeros, or a fraction not closer to zero than 1E-41. */
  ghost predicate WrittenOut(v: real) {
    || v == 0.0
    || exists m: int, e: int :: v == Scaled(m, e) && m % 10 != 0 && ShortEnough(v, e)
  }

  /** v is a number without a zero at its end times ten to the e. */
  ghost predicate ShortEnough(v: real, e: int) {
    if e >= 0 then e <= 40 else v >= Scaled(1, -41) || -v >= Scaled(1, -41)
  }

  lemma {:induction false} NatBounds(d: ByteString)
    requires Digits(d)
    ensures Nat(d) < Pow10(|d|) && (d != [] && d[0] != ZERO ==> Nat(d) >= Pow10(|d| - 1))
  {
    if d != [] {
      NatBounds(d[..|d| - 1]);
    }
  }

  lemma {:induction false} ScaledOrders(m: int, n: int, e: int)
    ensures m < n <==> Scaled(m, e) < Scaled(n, e)
    decreases if e < 0 then -e else e
  {
    if e > 0 {
      ScaledOrders(m, n, e - 1);
    } else if e < 0 {
      ScaledOrders(m, n, e + 1);
    }
  }

  lemma {:induction false} ScaledPower(k: nat, e: int)
    ensures Scaled(Pow10(k), e) == Scaled(1, e + k)
    decreases k
  {
    hide Scaled;
    if k > 0 {
      ZeroMoves(Pow10(k - 1), e);
      ScaledPower(k - 1, e + 1);
    }
  }

  lemma PowersOrder(e: int, f: int)
    ensures e < f <==> Scaled(1, e) < Scaled(1, f)
  {
    hide Scaled;
    if e < f {
      ScaledGrows(1, e, f - e);
    } else if e > f {
      ScaledGrows(1, f, e - f);
    }
  }

  /** The place of the first digit tells how large a number is. */
  lemma Magnitude(c: Decimal, k: int)
    requires c.Decimal? && Canonical(c)
    ensures var v := DecimalValue(c); PointAt(c) > k <==> v >= Scaled(1, k) || -v >= Scaled(1, k)
  {
    hide Scaled, Nat;
    var d := c.digits;
    NatBounds(d);
    ScaledOrders(Nat(d), Pow10(|d|), c.exp);
    ScaledOrders(Nat(d), Pow10(|d| - 1), c.exp);
    ScaledPower(|d|, c.exp);
    ScaledPower(|d| - 1, c.exp);
    PowersOrder(k, PointAt(c));
    PowersOrder(PointAt(c) - 1, k);
    PowersOrder(PointAt(c), k);
    ScaledSign(Nat(d), c.exp);
    ScaledSign(1, k);
  }

  lemma WrittenOutIff(c: Decimal)
    requires Canonical(c)
    ensures WrittenOut(DecimalValue(c)) <==> c.Nought? || Plain(c)
  {
    hide Scaled, Nat;
    if c.Decimal? {
      var m := WithSign(c.neg, Nat(c.digits));
      var v := DecimalValue(c);
      LastDigit(c.neg, c.digits);
      ScaledSign(m, c.exp);
      Magnitude(c, -41);
      assert v == Scaled(m, c.exp) && (ShortEnough(v, c.exp) <==> Plain(c));
      if n: int, e: int :| v == Scaled(n, e) && n % 10 != 0 && ShortEnough(v, e) {
        if e >= c.exp {
          SameExponent(n, e, m, c.exp);
        } else {
          SameExponent(m, c.exp, n, e);
        }
      }
    }
  }

  lemma NoLetter(c: Decimal)
    requires Canonical(c)
    ensures BIG_E !in Render(c) <==> c.Nought? || Plain(c)
  {
    if c.Decimal? {
      if Plain(c) {
        assert forall i | 0 <= i < |c.digits| :: c.digits[i] != BIG_E;
      } else {
        var sign, rest := if c.neg then [MINUS] else [], if |c.digits| > 1 then [DOT] + c.digits[1..] else [];
        var lead := sign + c.digits[..1] + rest;
        assert Render(c)[|lead|] == BIG_E;
      }
    }
  }

  /** Exactly those numbers come out without an exponent. */
  lemma PlainIff(s: ByteString)
    requires Read(s).Some?
    ensures Denotes(Normalize(s)).Some?
    ensures BIG_E !in Normalize(s) <==> WrittenOut(Denotes(Normalize(s)).value)
  {
    hide Read, Spell, Render, Canonical, Scaled, Nat, WrittenOut, Denotes;
    ReadIsSpelled(s);
    var c := Canon(Read(s).value);
    RenderDenotes(c);
    WrittenOutIff(c);
    NoLetter(c);
  }

  // ---- Numbers that are changed --------------------------------------------------------------------

  lemma SixDigits(a: Byte, b: Byte, c: Byte, d: Byte, e: Byte, f: Byte)
    requires Digit(a) && Digit(b) && Digit(c) && Digit(d) && Digit(e) && Digit(f)
    ensures Digits([a]) && Digits([a, b, c, d, e, f])
    ensures Nat([a, b, c, d, e, f])
         == 10 * (10 * (10 * (10 * (10 * Nat([a]) + (b - 48)) + (c - 48)) + (d - 48)) + (e - 48)) + (f - 48)
    ensures Nat([a]) == a - 48
  {
    NatLast([], a);
    NatLast([a], b);
    NatLast([a, b], c);
    NatLast([a, b, c], d);
    NatLast([a, b, c, d], e);
    NatLast([a, b, c, d, e], f);
    assert [] + [a] == [a] && [a] + [b] == [a, b] && [a, b] + [c] == [a, b, c] && [a, b, c] + [d] == [a, b, c, d];
    assert [a, b, c, d] + [e] == [a, b, c, d, e] && [a, b, c, d, e] + [f] == [a, b, c, d, e, f];
  }

  /** 1E1234567 comes back as 1E+123456. */
  lemma LongExponentChanges() returns (s: ByteString)
    ensures Read(s).Some? && Denotes(Normalize(s)) != Denotes(s)
  {
    hide Read, Spell, Normalize, Denotes, Nat;
    var e := Exponent(BIG_E, None, [49, 50, 51, 52, 53, 54, 55]);
    var n := Numeral(None, [49], false, [], Some(e));
    s := Spell(n);
    SpelledIsRead(n);
    SixDigits(49, 50, 51, 52, 53, 54);
    assert e.digits[..6] == [49, 50, 51, 52, 53, 54];
    assert n.ints + n.frac == [49];
    NatPositive([49], 0);
    ValueKeptIff(s);
  }

  /** 12E1000009 becomes 1.2E+1000010, which would become 1.2E+100001. */
  lemma LargeExponentMoves() returns (s: ByteString)
    ensures Read(s).Some? && Normalize(Normalize(s)) != Normalize(s)
  {
    hide Read, Spell, Normalize, Denotes, Nat, CappedFrom;
    var e := Exponent(BIG_E, None, [49, 48, 48, 48, 48, 48, 57]);
    var n := Numeral(None, [49, 50], false, [], Some(e));
    s := Spell(n);
    SpelledIsRead(n);
    SixDigits(49, 48, 48, 48, 48, 48);
    assert e.digits[..6] == [49, 48, 48, 48, 48, 48];
    NatLast(e.digits[..6], 57);
    assert e.digits[..6] + [57] == e.digits;
    CappedIff(n.exp);
    assert n.ints + n.frac == [49, 50] && [49, 50][..2] == [49, 50];
    IdempotentIff(s);
  }

  // ---- The scan itself -----------------------------------------------------------------------------

  method ScanExponent(digits: ByteString) returns (exp: nat)
    requires Digits(digits)
    ensures exp == CappedFrom(0, digits)
  {
    exp := 0;
    var i := 0;
    assert digits[0..] == digits;
    while i < |digits|
      invariant i <= |digits| && CappedFrom(0, digits) == CappedFrom(exp, digits[i..])
    {
      assert digits[i..][1..] == digits[i + 1..];
      exp := 10 * exp + (digits[i] - 48);
      if exp > EXPONENT_STOP {
        return;
      }
      i := i + 1;
    }
  }

  method DropLeading(digits: ByteString) returns (r: ByteString)
    ensures r == StripLead(digits)
  {
    var lead := 0;
    assert digits[0..] == digits;
    while lead + 1 < |digits| && digits[lead] == ZERO
      invariant lead <= |digits| && StripLead(digits) == StripLead(digits[lead..])
    {
      assert digits[lead..][1..] == digits[lead + 1..];
      lead := lead + 1;
    }
    return digits[lead..];
  }

  method DropTrailing(digits: ByteString) returns (r: ByteString, n: nat)
    ensures n == Trailing(digits) && r == digits[..|digits| - n]
  {
    r, n := digits, 0;
    assert digits[..|digits|] == digits;
    while |r| > 1 && r[|r| - 1] == ZERO
      invariant n <= |digits| && r == digits[..|digits| - n] && Trailing(digits) == n + Trailing(r)
    {
      assert r[..|r| - 1] == digits[..|digits| - (n + 1)];
      r := r[..|r| - 1];
      n := n + 1;
    }
  }

  /** Where the sign ends. */
  function AfterSign(s: ByteString): (i: nat)
    ensures i <= |s|
  {
    if Signed(s) then 1 else 0
  }

  /** Where the fraction ends, for a mantissa whose integer digits end at j. */
  function AfterPoint(s: ByteString, j: nat): (k: nat)
    requires j <= |s|
    ensures j <= k <= |s|
  {
    if j < |s| && s[j] == DOT then j + 1 + Span(s[j + 1..]) else j
  }

  lemma PointAtPosition(s: ByteString, j: nat)
    requires j <= |s|
    ensures var k := AfterPoint(s, j);
            ReadPoint(s[j..]) == (k > j, if k > j then s[j + 1..k] else [], s[k..])
  {
    hide Span;
    if j < |s| && s[j] == DOT {
      var n := Span(s[j + 1..]);
      assert s[j..][1..] == s[j + 1..];
      assert s[j + 1..][..n] == s[j + 1..j + 1 + n] && s[j + 1..][n..] == s[j + 1 + n..];
    }
  }

  lemma ReadAt(s: ByteString, j: nat, k: nat)
    requires j == AfterSign(s) + Span(s[AfterSign(s)..]) && j <= |s| && k == AfterPoint(s, j)
    ensures var ints, frac := s[AfterSign(s)..j], if k > j then s[j + 1..k] else [];
            Read(s) == if (ints == [] && frac == []) || ReadExponent(s[k..]).None? then None
                       else Some(Numeral(if Signed(s) then Some(s[0])
                           else None, ints, k > j, frac, ReadExponent(s[k..]).value))
  {
    hide Span, ReadExponent, ReadPoint, AfterPoint;
    var i := AfterSign(s);
    assert ReadSign(s).1 == s[i..];
    assert s[i..][..j - i] == s[i..j] && s[i..][j - i..] == s[j..];
    PointAtPosition(s, j);
  }

  /** The sign, the digits and the exponent of the last digit, as far as the text is a number. */
  method Scan(s: ByteString) returns (ok: bool, neg: bool, digits: ByteString, e: int)
    ensures ok <==> Read(s).Some?
    ensures ok ==> var n := Read(s).value;
                   && WellFormed(n) && neg == (n.sign == Some(MINUS)) && digits == n.ints + n.frac
                   && e == CappedExp(n.exp) - |n.frac|
  {
    hide Span, CappedFrom, ReadExponent, GoodExponent, Read;
    var i := if Signed(s) then 1 else 0;
    ok, neg, digits, e := false, i == 1 && s[0] == MINUS, [], 0;
    var intDigits, j := ScanDigits(s, i);
    var fracDigits: ByteString, k := [], j;
    if j < |s| && s[j] == DOT {
      fracDigits, k := ScanDigits(s, j + 1);
    }
    ReadAt(s, j, k);
    if intDigits == [] && fracDigits == [] {
      return;
    }
    var exp;
    ok, exp := ParseExponent(s, k);
    if ok {
      ReadIsSpelled(s);
      digits, e := intDigits + fracDigits, exp - |fracDigits|;
    }
  }

  /** Text in, canonical text out; anything unreadable is handed back. */
  method NormalizeNumber(s: ByteString) returns (r: ByteString)
    ensures r == Normalize(s)
  {
    hide Read, Normalize, Render, Canonical, Digits, WellFormed, StripLead, Trailing, CappedExp;
    var ok, neg, all, e := Scan(s);
    NormalIs(s, neg, all, e);
    if !ok {
      return s;
    }
    var stripped := DropLeading(all);
    if forall m | 0 <= m < |stripped| :: stripped[m] == ZERO {
      return [ZERO];
    }
    var digits, dropped := DropTrailing(stripped);
    return Render(Decimal(neg, digits, e + dropped));
  }

  lemma NormalIs(s: ByteString, neg: bool, digits: ByteString, e: int)
    requires Read(s).Some? ==> var n := Read(s).value;
               && WellFormed(n) && neg == (n.sign == Some(MINUS)) && digits == n.ints + n.frac
               && e == CappedExp(n.exp) - |n.frac|
    ensures Read(s).None? ==> Normalize(s) == s
    ensures Read(s).Some? ==> Canonical(Reduce(neg, digits, e)) && Normalize(s) == Render(Reduce(neg, digits, e))
    ensures Render(Nought) == [ZERO]
  {
    hide Read, CappedExp, Reduce, Nat;
    if Read(s).Some? {
      ReduceKeeps(neg, digits, e);
    }
  }

  /** The exponent from position i to the end, if that is what stands there. */
  method ParseExponent(s: ByteString, i: nat) returns (ok: bool, exp: int)
    requires i <= |s|
    ensures ok <==> ReadExponent(s[i..]).Some?
    ensures ok ==> (ReadExponent(s[i..]).value.Some? ==> GoodExponent(ReadExponent(s[i..]).value.value))
    ensures ok ==> exp == CappedExp(ReadExponent(s[i..]).value)
  {
    hide Span, CappedFrom, GoodExponent, ReadExponent;
    ok, exp := true, 0;
    if i == |s| {
      NoExponentAt(s);
      return;
    }
    var j, neg := i + 1, false;
    if j < |s| && (s[j] == PLUS || s[j] == MINUS) {
      neg := s[j] == MINUS;
      j := j + 1;
    }
    ExponentAt(s, i, j);
    if s[i] != BIG_E && s[i] != SMALL_E {
      ok := false;
      return;
    }
    var digits, k := ScanDigits(s, j);
    assert s[j..|s|] == s[j..];
    if digits == [] || k != |s| {
      ok := false;
      return;
    }
    ExponentSpelled(s[i..]);
    var value := ScanExponent(digits) by { AllSpan(s[j..]); }
    exp := WithSign(neg, value);
  }

  lemma NoExponentAt(s: ByteString)
    ensures ReadExponent(s[|s|..]) == Some(None)
  {
  }

  lemma ExponentAt(s: ByteString, i: nat, j: nat)
    requires i < |s| && j == i + 1 + AfterSign(s[i + 1..])
    ensures ReadExponent(s[i..]) ==
            if (s[i] != BIG_E && s[i] != SMALL_E) || s[j..] == [] || Span(s[j..]) != |s[j..]| then None
            else Some(Some(Exponent(s[i], if j > i + 1 then Some(s[i + 1]) else None, s[j..])))
  {
    hide Span;
    assert s[i..][1..] == s[i + 1..];
    assert ReadSign(s[i + 1..]).1 == s[j..];
  }
}
