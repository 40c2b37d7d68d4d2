/**
 The order-preserving key codec (src/engine/key_codec.cpp).  Numbers reach the codec as the 64-bit pattern of
 a double; the conversion from decimal text to that pattern is a function the caller supplies.
 */
module KeyCodec {
  import opened Bytes
  import opened Values

  const SIGN: nat := 0x8000_0000_0000_0000
  const WORD64: nat := 0x1_0000_0000_0000_0000

  type Bits = n: nat | n < WORD64

  /** What a key component contributes: the attribute may be missing, or of a type that cannot be a key. */
  datatype Part = Missing | Other | Binary(b: ByteString) | Number(bits: Bits) | Text(s: ByteString)

  function PartOf(v: Option<Value>, toBits: ByteString -> Bits): (p: Part) {
    match v
    case None => Missing
    case Some(S(s)) => Text(s)
    case Some(N(n)) => Number(toBits(n))
    case Some(B(b)) => Binary(b)
    case Some(_) => Other
  }

  // ---- Encoding ------------------------------------------------------------------------------------

  function Escaped(s: ByteString): (r: ByteString) {
    if s == [] then [0, 0]
    else (if s[0] == 0 then [0, 255] else [s[0]]) + Escaped(s[1..])
  }

  /** Negative patterns are complemented, others get the sign bit. */
  function Flip(b: Bits): (r: Bits) {
    if b >= SIGN then WORD64 - 1 - b else b + SIGN
  }

  function Pow(n: nat): (r: nat)
    ensures r > 0
  {
    if n == 0 then 1 else 256 * Pow(n - 1)
  }

  /** The low n bytes of v, most significant first. */
  function BigEndian(v: nat, n: nat): (r: ByteString)
    ensures |r| == n
  {
    if n == 0 then [] else BigEndian(v / 256, n - 1) + [v % 256]
  }

  function Encode(p: Part): (r: ByteString) {
    match p
    case Missing => [0, 0]
    case Other => [63, 0, 0]
    case Binary(b) => [66] + Escaped(b)
    case Number(bits) => [78] + BigEndian(Flip(bits), 8)
    case Text(s) => [83] + Escaped(s)
  }

  function EncodeAll(ps: seq<Part>): (r: ByteString) {
    if ps == [] then [] else Encode(ps[0]) + EncodeAll(ps[1..])
  }

  function Find(item: Item, name: ByteString): (v: Option<Value>) {
    if name in item then Some(item[name]) else None
  }

  function PartsOf(schema: seq<ByteString>, item: Item, toBits: ByteString -> Bits): (r: seq<Part>)
    ensures |r| == |schema| && forall i | 0 <= i < |r| :: r[i] == PartOf(Find(item, schema[i]), toBits)
  {
    seq(|schema|, i requires 0 <= i < |schema| => PartOf(Find(item, schema[i]), toBits))
  }

  /** encode_primary_key. */
  function PrimaryKey(schema: seq<ByteString>, item: Item, toBits: ByteString -> Bits): (r: ByteString) {
    EncodeAll(PartsOf(schema, item, toBits))
  }

  // ---- The order of encodings ----------------------------------------------------------------------

  lemma LessSame(h: Byte, x: ByteString, y: ByteString)
    ensures Less([h] + x, [h] + y) <==> Less(x, y)
    ensures [h] + x == [h] + y <==> x == y
  {
    assert ([h] + x)[1..] == x && ([h] + y)[1..] == y;
  }

  lemma LessFirst(h: Byte, k: Byte, x: ByteString, y: ByteString)
    requires h < k
    ensures Less([h] + x, [k] + y) && !Less([k] + y, [h] + x) && [h] + x != [k] + y
  {
    assert ([h] + x)[0] == h && ([k] + y)[0] == k;
  }

  /** Escaped strings compare as the strings, and what follows decides between equals. */
  lemma {:induction false} EscapedOrder(a: ByteString, b: ByteString, x: ByteString, y: ByteString)
    ensures Less(Escaped(a) + x, Escaped(b) + y) <==> Less(a, b) || (a == b && Less(x, y))
    ensures Escaped(a) + x == Escaped(b) + y <==> a == b && x == y
  {
    if a == [] || b == [] {
      EscapedEnd(a, b, x, y);
    } else if a[0] == b[0] {
      EscapedOrder(a[1..], b[1..], x, y);
      EscapedStep(a, x);
      EscapedStep(b, y);
      hide Escaped, Less;
      var ra, rb := Escaped(a[1..]) + x, Escaped(b[1..]) + y;
      LessSame(255, ra, rb);
      LessSame(a[0], [255] + ra, [255] + rb);
      LessSame(a[0], ra, rb);
      LessSame(a[0], a[1..], b[1..]);
      assert a == [a[0]] + a[1..] && b == [b[0]] + b[1..];
    } else {
      EscapedApart(a, b, x, y);
    }
  }

  lemma EscapedStep(a: ByteString, x: ByteString)
    requires a != []
    ensures var rest := Escaped(a[1..]) + x;
            Escaped(a) + x == if a[0] == 0 then [a[0]] + ([255] + rest) else [a[0]] + rest
  {
  }

  lemma EscapedEnd(a: ByteString, b: ByteString, x: ByteString, y: ByteString)
    requires a == [] || b == []
    ensures Less(Escaped(a) + x, Escaped(b) + y) <==> Less(a, b) || (a == b && Less(x, y))
    ensures Escaped(a) + x == Escaped(b) + y <==> a == b && x == y
  {
    var end: ByteString := [0, 0];
    assert end + x == [0] + ([0] + x) && end + y == [0] + ([0] + y);
    if a == [] && b == [] {
      LessSame(0, x, y);
      LessSame(0, [0] + x, [0] + y);
    } else if a == [] {
      EscapedStep(b, y);
      if b[0] == 0 {
        LessFirst(0, 255, x, Escaped(b[1..]) + y);
        LessSame(0, [0] + x, [255] + (Escaped(b[1..]) + y));
      } else {
        LessFirst(0, b[0], [0] + x, Escaped(b[1..]) + y);
      }
    } else {
      EscapedStep(a, x);
      if a[0] == 0 {
        LessFirst(0, 255, y, Escaped(a[1..]) + x);
        LessSame(0, [255] + (Escaped(a[1..]) + x), [0] + y);
      } else {
        LessFirst(0, a[0], [0] + y, Escaped(a[1..]) + x);
      }
    }
  }

  lemma EscapedApart(a: ByteString, b: ByteString, x: ByteString, y: ByteString)
    requires a != [] && b != [] && a[0] != b[0]
    ensures Less(Escaped(a) + x, Escaped(b) + y) <==> Less(a, b)
    ensures Escaped(a) + x != Escaped(b) + y
  {
    EscapedStep(a, x);
    EscapedStep(b, y);
    var ra, rb := (Escaped(a) + x)[1..], (Escaped(b) + y)[1..];
    assert Escaped(a) + x == [a[0]] + ra && Escaped(b) + y == [b[0]] + rb;
    if a[0] < b[0] {
      LessFirst(a[0], b[0], ra, rb);
    } else {
      LessFirst(b[0], a[0], rb, ra);
    }
  }

  // ---- Numbers -------------------------------------------------------------------------------------

  /** A pattern as the sign and magnitude it stands for; negative zero comes just before zero. */
  function SignedRank(b: Bits): (r: int) {
    if b >= SIGN then -1 - (b - SIGN) else b
  }

  lemma FlipOrders(a: Bits, b: Bits)
    ensures Flip(a) < Flip(b) <==> SignedRank(a) < SignedRank(b)
    ensures Flip(a) == Flip(b) <==> a == b
  {
  }

  /** Strings of one length compare before anything that follows them. */
  lemma {:induction false} LessConcat(a: ByteString, b: ByteString, x: ByteString, y: ByteString)
    requires |a| == |b|
    ensures Less(a + x, b + y) <==> Less(a, b) || (a == b && Less(x, y))
    ensures a + x == b + y <==> a == b && x == y
  {
    if a == [] {
      assert a + x == x && b + y == y;
    } else {
      assert (a + x)[1..] == a[1..] + x && (b + y)[1..] == b[1..] + y;
      assert a == [a[0]] + a[1..] && b == [b[0]] + b[1..];
      LessConcat(a[1..], b[1..], x, y);
      assert (a + x)[0] == a[0] && (b + y)[0] == b[0];
    }
  }

  lemma LessByte(c: Byte, d: Byte)
    ensures Less([c], [d]) <==> c < d
  {
    var x: ByteString, y: ByteString := [c], [d];
    assert x[1..] == [] && y[1..] == [];
  }

  /** Big-endian bytes compare as the numbers. */
  lemma {:induction false} BigEndianOrder(v: nat, w: nat, n: nat)
    requires v < Pow(n) && w < Pow(n)
    ensures Less(BigEndian(v, n), BigEndian(w, n)) <==> v < w
    ensures BigEndian(v, n) == BigEndian(w, n) <==> v == w
  {
    if n > 0 {
      BigEndianOrder(v / 256, w / 256, n - 1);
      LessConcat(BigEndian(v / 256, n - 1), BigEndian(w / 256, n - 1), [v % 256], [w % 256]);
      LessByte(v % 256, w % 256);
    }
  }

  lemma WordIsEightBytes()
    ensures Pow(8) == WORD64
  {
    assert Pow(4) == 0x1_0000_0000;
    assert Pow(8) == 256 * (256 * (256 * (256 * Pow(4))));
  }

  lemma NumberOrder(a: Bits, b: Bits, x: ByteString, y: ByteString)
    ensures var p, q := BigEndian(Flip(a), 8), BigEndian(Flip(b), 8);
            && (Less(p + x, q + y) <==> SignedRank(a) < SignedRank(b) || (a == b && Less(x, y)))
            && (p + x == q + y <==> a == b && x == y)
  {
    WordIsEightBytes();
    BigEndianOrder(Flip(a), Flip(b), 8);
    LessConcat(BigEndian(Flip(a), 8), BigEndian(Flip(b), 8), x, y);
    FlipOrders(a, b);
  }

  // ---- Components and composite keys ---------------------------------------------------------------

  /** Components compare by kind, then by content. */
  predicate PartLess(p: Part, q: Part) {
    match (p, q)
    case (Binary(a), Binary(b)) => Less(a, b)
    case (Number(a), Number(b)) => SignedRank(a) < SignedRank(b)
    case (Text(a), Text(b)) => Less(a, b)
    case _ => Kind(p) < Kind(q)
  }

  /** The first byte of an encoding. */
  function Kind(p: Part): (k: Byte) {
    match p case Missing => 0 case Other => 63 case Binary(_) => 66 case Number(_) => 78 case Text(_) => 83
  }

  lemma EncodeTag(p: Part, x: ByteString)
    ensures Encode(p) != [] && Encode(p)[0] == Kind(p)
    ensures Encode(p) + x == [Kind(p)] + (Encode(p)[1..] + x)
  {
    hide BigEndian, Escaped, Flip;
    TagSplits(Encode(p), x);
  }

  lemma TagSplits(e: ByteString, x: ByteString)
    requires e != []
    ensures e + x == [e[0]] + (e[1..] + x)
  {
  }

  /** A component's encoding ends by itself, and encodings order as components. */
  lemma PartOrder(p: Part, q: Part, x: ByteString, y: ByteString)
    ensures Less(Encode(p) + x, Encode(q) + y) <==> PartLess(p, q) || (p == q && Less(x, y))
    ensures Encode(p) + x == Encode(q) + y <==> p == q && x == y
  {
    var rp, rq := Encode(p)[1..] + x, Encode(q)[1..] + y;
    EncodeTag(p, x);
    EncodeTag(q, y);
    if Kind(p) != Kind(q) {
      if Kind(p) < Kind(q) {
        LessFirst(Kind(p), Kind(q), rp, rq);
      } else {
        LessFirst(Kind(q), Kind(p), rq, rp);
      }
    } else {
      LessSame(Kind(p), rp, rq);
      SameKindOrder(p, q, x, y);
    }
  }

  lemma SameKindOrder(p: Part, q: Part, x: ByteString, y: ByteString)
    requires Kind(p) == Kind(q)
    ensures var rp, rq := Encode(p)[1..] + x, Encode(q)[1..] + y;
            && (Less(rp, rq) <==> PartLess(p, q) || (p == q && Less(x, y)))
            && (rp == rq <==> p == q && x == y)
  {
    match p
    case Missing =>
      LessConcat([0], [0], x, y);
    case Other =>
      LessConcat([0, 0], [0, 0], x, y);
    case Binary(a) =>
      EscapedOrder(a, q.b, x, y);
    case Number(a) =>
      NumberOrder(a, q.bits, x, y);
    case Text(a) =>
      EscapedOrder(a, q.s, x, y);
  }

  predicate LexLess(ps: seq<Part>, qs: seq<Part>)
    requires |ps| == |qs|
  {
    ps != [] && (PartLess(ps[0], qs[0]) || (ps[0] == qs[0] && LexLess(ps[1..], qs[1..])))
  }

  /** Composite keys order as (hash, range), and no two lists of components share an encoding. */
  lemma {:induction false} CompositeOrder(ps: seq<Part>, qs: seq<Part>, x: ByteString, y: ByteString)
    requires |ps| == |qs|
    ensures Less(EncodeAll(ps) + x, EncodeAll(qs) + y) <==> LexLess(ps, qs) || (ps == qs && Less(x, y))
    ensures EncodeAll(ps) + x == EncodeAll(qs) + y <==> ps == qs && x == y
  {
    if ps == [] {
      assert EncodeAll(ps) + x == x && EncodeAll(qs) + y == y;
    } else {
      EncodeAllHead(ps, x);
      EncodeAllHead(qs, y);
      assert ps == qs <==> ps[0] == qs[0] && ps[1..] == qs[1..] by {
        assert ps == [ps[0]] + ps[1..] && qs == [qs[0]] + qs[1..];
      }
      CompositeOrder(ps[1..], qs[1..], x, y);
      hide Encode, EncodeAll, Less, PartLess;
      PartOrder(ps[0], qs[0], EncodeAll(ps[1..]) + x, EncodeAll(qs[1..]) + y);
    }
  }

  lemma EncodeAllHead(ps: seq<Part>, x: ByteString)
    requires ps != []
    ensures EncodeAll(ps) + x == Encode(ps[0]) + (EncodeAll(ps[1..]) + x)
  {
    hide Encode;
  }

  /** An encoded component is a prefix of a list exactly when it is the first one. */
  lemma PrefixPartIff(p: Part, qs: seq<Part>)
    requires qs != []
    ensures HasPrefix(EncodeAll(qs), Encode(p)) <==> p == qs[0]
  {
    var k, e := EncodeAll(qs), Encode(p);
    if HasPrefix(k, e) {
      assert k == e + k[|e|..];
      PartOrder(p, qs[0], k[|e|..], EncodeAll(qs[1..]));
    } else {
      assert k[..|Encode(qs[0])|] == Encode(qs[0]);
    }
  }

  /** Two items of a table share a primary key exactly when their key attributes give the same components. */
  lemma SamePartsIff(schema: seq<ByteString>, a: Item, b: Item, toBits: ByteString -> Bits)
    ensures PrimaryKey(schema, a, toBits) == PrimaryKey(schema, b, toBits)
       <==> forall i | 0 <= i < |schema| :: PartOf(Find(a, schema[i]), toBits) == PartOf(Find(b, schema[i]), toBits)
  {
    var ps, qs := PartsOf(schema, a, toBits), PartsOf(schema, b, toBits);
    CompositeOrder(ps, qs, [], []);
    assert EncodeAll(ps) + [] == EncodeAll(ps) && EncodeAll(qs) + [] == EncodeAll(qs);
    assert ps == qs <==> forall i | 0 <= i < |schema| :: ps[i] == qs[i];
  }

  // ---- What this means for attribute values --------------------------------------------------------

  /** Two attributes are one key: equal strings, equal bytes, or numbers with the same double. */
  ghost predicate SameKey(v: Option<Value>, w: Option<Value>, toBits: ByteString -> Bits) {
    match (v, w)
    case (Some(S(a)), Some(S(b))) => a == b
    case (Some(B(a)), Some(B(b))) => a == b
    case (Some(N(a)), Some(N(b))) => toBits(a) == toBits(b)
    case _ => Rank(v) == Rank(w) < 2
  }

  /** Strings and bytes sort as such, numbers by their double, and types by rank. */
  ghost predicate KeyLess(v: Option<Value>, w: Option<Value>, toBits: ByteString -> Bits) {
    match (v, w)
    case (Some(S(a)), Some(S(b))) => Less(a, b)
    case (Some(B(a)), Some(B(b))) => Less(a, b)
    case (Some(N(a)), Some(N(b))) => SignedRank(toBits(a)) < SignedRank(toBits(b))
    case _ => Rank(v) < Rank(w)
  }

  /** A missing attribute, one that cannot be a key, bytes, numbers, strings. */
  function Rank(v: Option<Value>): (r: nat) {
    if v.None? then 0 else if v.value.B? then 2 else if v.value.N? then 3 else if v.value.S? then 4 else 1
  }

  lemma PartMeans(v: Option<Value>, w: Option<Value>, toBits: ByteString -> Bits)
    ensures PartOf(v, toBits) == PartOf(w, toBits) <==> SameKey(v, w, toBits)
    ensures PartLess(PartOf(v, toBits), PartOf(w, toBits)) <==> KeyLess(v, w, toBits)
  {
    hide Less, SignedRank;
  }

  /** Whatever follows them, encoded attributes compare as the attributes. */
  lemma ValueOrder(v: Option<Value>, w: Option<Value>, x: ByteString, y: ByteString, toBits: ByteString -> Bits)
    ensures var e, f := Encode(PartOf(v, toBits)), Encode(PartOf(w, toBits));
            && (Less(e + x, f + y) <==> KeyLess(v, w, toBits) || (SameKey(v, w, toBits) && Less(x, y)))
            && (e + x == f + y <==> SameKey(v, w, toBits) && x == y)
  {
    hide Encode, PartOf, PartLess, SameKey, KeyLess;
    PartMeans(v, w, toBits);
    PartOrder(PartOf(v, toBits), PartOf(w, toBits), x, y);
  }

  // ---- What the patterns of doubles stand for ------------------------------------------------------

  /** Two to the 52: the weight of an exponent step. */
  const FRACTION: nat := 0x10_0000_0000_0000

  function Pow2(n: nat): (r: nat)
    ensures r > 0
  {
    if n == 0 then 1 else 2 * Pow2(n - 1)
  }

  /** IEEE 754 without the sign, in units of the smallest subnormal: 52 fraction bits under a biased exponent. */
  function Units(magnitude: nat): (u: int) {
    var exponent, fraction := magnitude / FRACTION, magnitude % FRACTION;
    if exponent == 0 then fraction else (FRACTION + fraction) * Pow2(exponent - 1)
  }

  /** The double of a pattern, in the same units. */
  function DoubleUnits(b: Bits): (u: int) {
    if b >= SIGN then -Units(b - SIGN) else Units(b)
  }

  lemma TimesOrders(a: nat, b: nat, c: nat)
    requires a < b && c > 0
    ensures a * c < b * c
  {
  }

  /** The next pattern is a larger double, also where the exponent steps up. */
  lemma UnitsStep(m: nat)
    ensures Units(m) < Units(m + 1)
  {
    hide Pow2;
    var e, f := m / FRACTION, m % FRACTION;
    if f + 1 < FRACTION {
      assert (m + 1) / FRACTION == e && (m + 1) % FRACTION == f + 1;
      if e > 0 {
        TimesOrders(FRACTION + f, FRACTION + f + 1, Pow2(e - 1));
      }
    } else {
      assert m + 1 == (e + 1) * FRACTION;
      assert (m + 1) / FRACTION == e + 1 && (m + 1) % FRACTION == 0;
      ExponentStep(e, f);
    }
  }

  lemma ExponentStep(e: nat, f: nat)
    requires f + 1 == FRACTION
    ensures e == 0 ==> f < FRACTION * Pow2(0)
    ensures e > 0 ==> (FRACTION + f) * Pow2(e - 1) < FRACTION * Pow2(e)
  {
    if e > 0 {
      TimesOrders(FRACTION + f, 2 * FRACTION, Pow2(e - 1));
    }
  }

  lemma {:induction false} UnitsOrder(m: nat, n: nat)
    requires m < n
    ensures Units(m) < Units(n)
    decreases n - m
  {
    hide Units;
    UnitsStep(n - 1);
    if m < n - 1 {
      UnitsOrder(m, n - 1);
    }
  }

  /** Patterns rank as the doubles they stand for, but that negative zero ranks just below zero. */
  lemma DoublesOrder(a: Bits, b: Bits)
    ensures SignedRank(a) < SignedRank(b) <==> DoubleUnits(a) < DoubleUnits(b) || (a == SIGN && b == 0)
    ensures DoubleUnits(a) == DoubleUnits(b) <==> a == b || {a, b} == {0, SIGN}
  {
    var m, n := if a >= SIGN then a - SIGN else a, if b >= SIGN then b - SIGN else b;
    assert Units(0) == 0;
    hide Units;
    if m > 0 { UnitsOrder(0, m); }
    if n > 0 { UnitsOrder(0, n); }
    if m < n { UnitsOrder(m, n); }
    if n < m { UnitsOrder(n, m); }
  }

  lemma OneAttribute(k: ByteString, item: Item, toBits: ByteString -> Bits)
    ensures PrimaryKey([k], item, toBits) == Encode(PartOf(Find(item, k), toBits)) + []
  {
    hide Encode, PartOf;
    var ps := PartsOf([k], item, toBits);
    assert ps[1..] == [] && ps[0] == PartOf(Find(item, [k][0]), toBits);
    assert EncodeAll(ps) == Encode(ps[0]) + EncodeAll(ps[1..]);
  }

  /** A key of one number attribute sorts by the double; the two zeros are the only equal doubles kept apart. */
  lemma NumberKeys(k: ByteString, a: Item, b: Item, x: ByteString, y: ByteString, toBits: ByteString -> Bits)
    requires k in a && k in b && a[k] == N(x) && b[k] == N(y)
    ensures Less(PrimaryKey([k], a, toBits), PrimaryKey([k], b, toBits))
       <==> SignedRank(toBits(x)) < SignedRank(toBits(y))
    ensures Less(PrimaryKey([k], a, toBits), PrimaryKey([k], b, toBits))
       <==> DoubleUnits(toBits(x)) < DoubleUnits(toBits(y)) || (toBits(x) == SIGN && toBits(y) == 0)
    ensures PrimaryKey([k], a, toBits) == PrimaryKey([k], b, toBits)
       <==> DoubleUnits(toBits(x)) == DoubleUnits(toBits(y)) && {toBits(x), toBits(y)} != {0, SIGN}
  {
    hide PrimaryKey, Encode, PartOf, SignedRank, DoubleUnits;
    DoublesOrder(toBits(x), toBits(y));
    OneAttribute(k, a, toBits);
    OneAttribute(k, b, toBits);
    ValueOrder(Some(N(x)), Some(N(y)), [], [], toBits);
  }

  /** A key of one string attribute sorts by the string. */
  lemma StringKeys(k: ByteString, a: Item, b: Item, x: ByteString, y: ByteString, toBits: ByteString -> Bits)
    requires k in a && k in b && a[k] == S(x) && b[k] == S(y)
    ensures Less(PrimaryKey([k], a, toBits), PrimaryKey([k], b, toBits)) <==> Less(x, y)
    ensures PrimaryKey([k], a, toBits) == PrimaryKey([k], b, toBits) <==> x == y
  {
    hide PrimaryKey, Encode, PartOf;
    OneAttribute(k, a, toBits);
    OneAttribute(k, b, toBits);
    ValueOrder(Some(S(x)), Some(S(y)), [], [], toBits);
  }

  /** A key of one binary attribute sorts by the bytes. */
  lemma BinaryKeys(k: ByteString, a: Item, b: Item, x: ByteString, y: ByteString, toBits: ByteString -> Bits)
    requires k in a && k in b && a[k] == B(x) && b[k] == B(y)
    ensures Less(PrimaryKey([k], a, toBits), PrimaryKey([k], b, toBits)) <==> Less(x, y)
    ensures PrimaryKey([k], a, toBits) == PrimaryKey([k], b, toBits) <==> x == y
  {
    hide PrimaryKey, Encode, PartOf;
    OneAttribute(k, a, toBits);
    OneAttribute(k, b, toBits);
    ValueOrder(Some(B(x)), Some(B(y)), [], [], toBits);
  }

  /** Values of different key types never share an encoding, and neither extends the other. */
  lemma TypesApart(v: Value, w: Value, toBits: ByteString -> Bits)
    requires v.S? || v.N? || v.B?
    requires w.S? || w.N? || w.B?
    requires v.S? != w.S? || v.N? != w.N?
    ensures !HasPrefix(Encode(PartOf(Some(v), toBits)), Encode(PartOf(Some(w), toBits)))
    ensures !HasPrefix(Encode(PartOf(Some(w), toBits)), Encode(PartOf(Some(v), toBits)))
  {
    var e, f := Encode(PartOf(Some(v), toBits)), Encode(PartOf(Some(w), toBits));
    hide Encode, PartOf;
    if HasPrefix(e, f) {
      assert e + [] == f + e[|f|..];
      ValueOrder(Some(v), Some(w), [], e[|f|..], toBits);
    }
    if HasPrefix(f, e) {
      assert f + [] == e + f[|e|..];
      ValueOrder(Some(v), Some(w), f[|e|..], [], toBits);
    }
  }

  /** Keys of several attributes, such as (hash, range): the first attribute that differs decides. */
  ghost predicate DecidedAt(schema: seq<ByteString>, a: Item, b: Item, toBits: ByteString -> Bits, i: nat) {
    && i < |schema| && KeyLess(Find(a, schema[i]), Find(b, schema[i]), toBits)
    && forall j | 0 <= j < i :: SameKey(Find(a, schema[j]), Find(b, schema[j]), toBits)
  }

  lemma {:induction false} LexLessMeans(schema: seq<ByteString>, a: Item, b: Item, toBits: ByteString -> Bits)
    ensures LexLess(PartsOf(schema, a, toBits), PartsOf(schema, b, toBits))
       <==> exists i: nat :: DecidedAt(schema, a, b, toBits, i)
  {
    hide PartOf, PartLess, SameKey, KeyLess;
    if schema != [] {
      var rest := schema[1..];
      LexLessMeans(rest, a, b, toBits);
      PartMeans(Find(a, schema[0]), Find(b, schema[0]), toBits);
      assert PartsOf(schema, a, toBits)[1..] == PartsOf(rest, a, toBits);
      assert PartsOf(schema, b, toBits)[1..] == PartsOf(rest, b, toBits);
      if i: nat :| DecidedAt(schema, a, b, toBits, i) {
        if i > 0 {
          assert forall j | 0 <= j < i - 1 :: rest[j] == schema[j + 1];
          assert DecidedAt(rest, a, b, toBits, i - 1);
        }
      }
      if PartLess(PartOf(Find(a, schema[0]), toBits), PartOf(Find(b, schema[0]), toBits)) {
        assert DecidedAt(schema, a, b, toBits, 0);
      } else if SameKey(Find(a, schema[0]), Find(b, schema[0]), toBits) {
        if i: nat :| DecidedAt(rest, a, b, toBits, i) {
          assert forall j | 0 < j <= i :: schema[j] == rest[j - 1];
          assert DecidedAt(schema, a, b, toBits, i + 1);
        }
      }
    }
  }

  lemma KeysOrder(schema: seq<ByteString>, a: Item, b: Item, toBits: ByteString -> Bits)
    ensures Less(PrimaryKey(schema, a, toBits), PrimaryKey(schema, b, toBits))
       <==> exists i: nat :: DecidedAt(schema, a, b, toBits, i)
  {
    var ps, qs := PartsOf(schema, a, toBits), PartsOf(schema, b, toBits);
    hide PartsOf, Less, LexLess, EncodeAll, DecidedAt;
    CompositeOrder(ps, qs, [], []);
    NothingBelowEmpty();
    LexLessMeans(schema, a, b, toBits);
    assert EncodeAll(ps) + [] == EncodeAll(ps) && EncodeAll(qs) + [] == EncodeAll(qs);
  }

  lemma NothingBelowEmpty()
    ensures !Less([], [])
  {
  }

  /** An encoded hash value is a prefix of an item's key exactly when the item has that hash key. */
  lemma HashPrefixIff(v: Value, schema: seq<ByteString>, item: Item, toBits: ByteString -> Bits)
    requires schema != []
    ensures HasPrefix(PrimaryKey(schema, item, toBits), Encode(PartOf(Some(v), toBits)))
       <==> SameKey(Some(v), Find(item, schema[0]), toBits)
  {
    var ps := PartsOf(schema, item, toBits);
    hide PartOf, SameKey, PartsOf;
    PrefixPartIff(PartOf(Some(v), toBits), ps);
    PartMeans(Some(v), Find(item, schema[0]), toBits);
  }

  /** Two items of a table share a primary key exactly when each key attribute is the same key. */
  lemma SameKeyIff(schema: seq<ByteString>, a: Item, b: Item, toBits: ByteString -> Bits)
    ensures PrimaryKey(schema, a, toBits) == PrimaryKey(schema, b, toBits)
       <==> forall i | 0 <= i < |schema| :: SameKey(Find(a, schema[i]), Find(b, schema[i]), toBits)
  {
    hide PrimaryKey, PartOf, SameKey;
    SamePartsIff(schema, a, b, toBits);
    forall i | 0 <= i < |schema|
      ensures PartOf(Find(a, schema[i]), toBits) == PartOf(Find(b, schema[i]), toBits)
         <==> SameKey(Find(a, schema[i]), Find(b, schema[i]), toBits)
    {
      PartMeans(Find(a, schema[i]), Find(b, schema[i]), toBits);
    }
  }

  // ---- The loops -----------------------------------------------------------------------------------

  method AppendEscaped(out: ByteString, bytes: ByteString) returns (r: ByteString)
    ensures r == out + Escaped(bytes)
  {
    r := out;
    var i := 0;
    assert bytes[0..] == bytes;
    while i < |bytes|
      invariant 0 <= i <= |bytes|
      invariant r + Escaped(bytes[i..]) == out + Escaped(bytes)
    {
      assert bytes[i..][0] == bytes[i] && bytes[i..][1..] == bytes[i + 1..];
      r := r + [bytes[i]];
      if bytes[i] == 0 {
        r := r + [255];
      }
      i := i + 1;
    }
    assert Escaped(bytes[i..]) == [0] + [0];
    r := r + [0];
    r := r + [0];
  }

  lemma DivideTwice(v: nat, p: nat)
    requires p > 0
    ensures v / p / 256 == v / (256 * p)
  {
    var q, r := v / p, v % p;
    assert v == q * p + r;
    var q2, r2 := q / 256, q % 256;
    assert q == q2 * 256 + r2;
    assert v == q2 * (256 * p) + (r2 * p + r);
    MulMonotone(r2 + 1, 256, p);
    UniqueQuotient(v, q2, r2 * p + r, 256 * p);
  }

  lemma UniqueQuotient(x: nat, q: nat, m: nat, p: nat)
    requires p > 0 && x == q * p + m && m < p
    ensures x / p == q && x % p == m
  {
    if x / p < q {
      MulMonotone(x / p + 1, q, p);
    } else if q < x / p {
      MulMonotone(q + 1, x / p, p);
    }
  }

  lemma MulMonotone(a: nat, b: nat, p: nat)
    requires a <= b
    ensures a * p <= b * p
  {
    assert b * p == a * p + (b - a) * p;
  }

  lemma BigEndianStep(v: nat, n: nat)
    ensures n > 0 ==> BigEndian(v, n) == BigEndian(v / 256, n - 1) + [v % 256]
    ensures n == 0 ==> BigEndian(v, n) == []
    ensures Pow(0) == 1 && Pow(n + 1) == 256 * Pow(n)
  {
  }

  /** Byte by byte from the top: (bits >> (i * 8)) & 0xFF. */
  method AppendNumber(out: ByteString, pattern: Bits) returns (r: ByteString)
    ensures r == out + BigEndian(Flip(pattern), 8)
  {
    WordIsEightBytes();
    hide BigEndian, Pow;
    var bits := Flip(pattern);
    r := out;
    var i := 8;
    BigEndianStep(bits / Pow(8), 0);
    while i > 0
      invariant 0 <= i <= 8
      invariant r == out + BigEndian(bits / Pow(i), 8 - i)
    {
      i := i - 1;
      BigEndianStep(0, i);
      DivideTwice(bits, Pow(i));
      BigEndianStep(bits / Pow(i), 8 - i);
      r := r + [bits / Pow(i) % 256];
    }
    assert bits / Pow(0) == bits by { BigEndianStep(bits, 0); }
  }

  method EncodeComponent(out: ByteString, v: Value, toBits: ByteString -> Bits) returns (r: ByteString)
    ensures r == out + Encode(PartOf(Some(v), toBits))
  {
    match v {
      case S(s) =>
        r := AppendEscaped(out + [83], s);
      case N(n) =>
        r := AppendNumber(out + [78], toBits(n));
      case B(b) =>
        r := AppendEscaped(out + [66], b);
      case _ =>
        r := out + [63] + [0] + [0];
    }
  }

  lemma {:induction false} EncodeAllAppend(ps: seq<Part>, qs: seq<Part>)
    ensures EncodeAll(ps + qs) == EncodeAll(ps) + EncodeAll(qs)
  {
    if ps == [] {
      assert ps + qs == qs;
    } else {
      assert (ps + qs)[1..] == ps[1..] + qs;
      EncodeAllAppend(ps[1..], qs);
    }
  }

  lemma EncodeOneMore(ps: seq<Part>, i: nat)
    requires i < |ps|
    ensures EncodeAll(ps[..i + 1]) == EncodeAll(ps[..i]) + Encode(ps[i])
  {
    hide Encode;
    assert ps[..i + 1] == ps[..i] + [ps[i]];
    EncodeAllAppend(ps[..i], [ps[i]]);
    assert EncodeAll([ps[i]]) == Encode(ps[i]) + EncodeAll([]);
  }

  method EncodePrimaryKey(schema: seq<ByteString>, item: Item, toBits: ByteString -> Bits) returns (r: ByteString)
    ensures r == PrimaryKey(schema, item, toBits)
  {
    r := [];
    ghost var ps := PartsOf(schema, item, toBits);
    assert Encode(Missing) == [0] + [0];
    var i := 0;
    while i < |schema|
      invariant 0 <= i <= |schema| && r == EncodeAll(ps[..i])
    {
      EncodeOneMore(ps, i);
      hide Encode, EncodeAll;
      if schema[i] in item {
        r := EncodeComponent(r, item[schema[i]], toBits);
      } else {
        r := r + ([0] + [0]);
      }
      i := i + 1;
    }
    assert ps[..i] == ps;
  }
}
