/** The recursive record codec (src/engine/lsm/record_codec.cpp). */
module RecordCodec {
  import opened Bytes
  import opened Values
  import opened SortedKeys

  const WORD: nat := 0x1_0000_0000

  /** A decoded value and the bytes after it, or failure. */
  datatype Result<T> = Fail | Ok(value: T, rest: ByteString)

  // ---- 32-bit lengths ------------------------------------------------------------------------------

  /** put_u32: the cast keeps the low 32 bits, stored least significant byte first. */
  function U32(n: nat): (r: ByteString)
    ensures |r| == 4
  {
    var v := n % WORD;
    var v1 := v / 256;
    var v2 := v1 / 256;
    [v % 256, v1 % 256, v2 % 256, v2 / 256]
  }

  function ReadU32(d: ByteString): (r: Result<nat>)
    ensures r.Ok? ==> r.value < WORD && |r.rest| == |d| - 4
  {
    if |d| < 4 then Fail
    else
      var a: nat, b: nat, c: nat, e: nat := d[0], d[1], d[2], d[3];
      Ok(a + 256 * b + 65536 * c + 16777216 * e, d[4..])
  }

  lemma U32RoundTrip(n: nat, x: ByteString)
    ensures ReadU32(U32(n) + x) == Ok(n % WORD, x)
  {
    var d := U32(n) + x;
    assert d[4..] == x;
    FourBytes(n % WORD);
    assert d[0] == U32(n)[0] && d[1] == U32(n)[1] && d[2] == U32(n)[2] && d[3] == U32(n)[3];
  }

  lemma FourBytes(v: nat)
    requires v < WORD
    ensures v == v % 256 + 256 * (v / 256 % 256) + 65536 * (v / 256 / 256 % 256) + 16777216 * (v / 256 / 256 / 256)
  {
    var v1 := v / 256;
    var v2 := v1 / 256;
    var v3 := v2 / 256;
    assert v == 256 * v1 + v % 256;
    assert v1 == 256 * v2 + v1 % 256;
    assert v2 == 256 * v3 + v2 % 256;
  }

  lemma U32Small(n: nat, x: ByteString)
    requires n < WORD
    ensures ReadU32(U32(n) + x) == Ok(n, x)
  {
    U32RoundTrip(n, x);
  }

  function Sized(s: ByteString): (r: ByteString)
    ensures |r| == |s| + 4
  {
    U32(|s|) + s
  }

  function ReadBytes(n: nat, d: ByteString): (r: Result<ByteString>)
    ensures r.Ok? ==> |r.value| == n && |r.rest| == |d| - n
  {
    if |d| < n then Fail else Ok(d[..n], d[n..])
  }

  function ReadSized(d: ByteString): (r: Result<ByteString>)
    ensures r.Ok? ==> |r.rest| < |d| && |r.value| < WORD
  {
    match ReadU32(d)
    case Fail => Fail
    case Ok(n, rest) => ReadBytes(n, rest)
  }

  lemma SizedRoundTrip(s: ByteString, x: ByteString)
    requires |s| < WORD
    ensures ReadSized(Sized(s) + x) == Ok(s, x)
  {
    assert Sized(s) + x == U32(|s|) + (s + x);
    U32RoundTrip(|s|, s + x);
    assert (s + x)[..|s|] == s && (s + x)[|s|..] == x;
  }

  // ---- 64-bit numbers ------------------------------------------------------------------------------

  function U64(n: nat): (r: ByteString)
    ensures |r| == 8
  {
    U32(n) + U32(n / WORD)
  }

  function WordAt(d: ByteString): (n: nat)
    requires |d| >= 4
  {
    ReadU32(d).value
  }

  function ReadU64(d: ByteString): (n: nat)
    requires |d| >= 8
  {
    ReadU32(d).value + WORD * ReadU32(d[4..]).value
  }

  lemma U64RoundTrip(n: nat, x: ByteString)
    requires n < WORD * WORD
    ensures ReadU64(U64(n) + x) == n
  {
    assert U64(n) + x == U32(n) + (U32(n / WORD) + x);
    U32RoundTrip(n, U32(n / WORD) + x);
    U32Small(n / WORD, x);
    assert (U64(n) + x)[4..] == U32(n / WORD) + x;
  }

  // ---- Encoding ------------------------------------------------------------------------------------

  function EncodeStrings(ss: seq<ByteString>): (r: ByteString) {
    if ss == [] then [] else Sized(ss[0]) + EncodeStrings(ss[1..])
  }

  function EncodeValue(v: Value): (r: ByteString)
    ensures |r| > 0
    decreases v, 1
  {
    match v
    case S(s) => [0] + Sized(s)
    case N(n) => [1] + Sized(n)
    case B(b) => [2] + Sized(b)
    case BOOL(flag) => [3, if flag then 1 else 0]
    case NUL => [4]
    case M(fields) =>
      SortedEnumerates(fields.Keys);
      [5] + U32(|fields|) + EncodeFields(v, Sorted(fields.Keys))
    case L(elems) => [6] + U32(|elems|) + EncodeList(elems)
    case SS(ss) => [7] + U32(|ss|) + EncodeStrings(ss)
    case NS(ss) => [8] + U32(|ss|) + EncodeStrings(ss)
    case BS(ss) => [9] + U32(|ss|) + EncodeStrings(ss)
  }

  /** The map's iteration order is the ascending order of its names. */
  function EncodeFields(v: Value, names: seq<ByteString>): (r: ByteString)
    requires v.M? && forall k | k in names :: k in v.fields
    decreases v, 0, |names|
  {
    if names == [] then [] else Sized(names[0]) + EncodeValue(v.fields[names[0]]) + EncodeFields(v, names[1..])
  }

  function EncodeList(elems: seq<Value>): (r: ByteString)
    decreases elems, 0
  {
    if elems == [] then [] else EncodeValue(elems[0]) + EncodeList(elems[1..])
  }

  /** encode_attributes. */
  function EncodeItem(item: Item): (r: ByteString) {
    SortedEnumerates(item.Keys);
    U32(|item|) + EncodeFields(M(item), Sorted(item.Keys))
  }

  // ---- Decoding ------------------------------------------------------------------------------------

  function DecodeStrings(count: nat, d: ByteString): (r: Result<seq<ByteString>>)
    ensures r.Ok? ==> |r.rest| <= |d| && |r.value| == count
    decreases count
  {
    if count == 0 then Ok([], d)
    else match ReadSized(d)
      case Fail => Fail
      case Ok(s, rest) =>
        match DecodeStrings(count - 1, rest)
        case Fail => Fail
        case Ok(ss, rest') => Ok([s] + ss, rest')
  }

  function DecodeCounted(d: ByteString): (r: Result<seq<ByteString>>)
    ensures r.Ok? ==> |r.rest| < |d|
  {
    match ReadU32(d)
    case Fail => Fail
    case Ok(count, rest) => DecodeStrings(count, rest)
  }

  function Wrap<T>(r: Result<T>, f: T -> Value): (w: Result<Value>)
    ensures w.Ok? <==> r.Ok?
    ensures w.Ok? ==> w.value == f(r.value) && w.rest == r.rest
  {
    match r case Fail => Fail case Ok(x, rest) => Ok(f(x), rest)
  }

  function DecodeValue(d: ByteString): (r: Result<Value>)
    ensures r.Ok? ==> |r.rest| < |d|
    decreases |d|, 0
  {
    if d == [] then Fail
    else
      var body := d[1..];
      match d[0]
      case 0 => Wrap(ReadSized(body), s => S(s))
      case 1 => Wrap(ReadSized(body), s => N(s))
      case 2 => Wrap(ReadSized(body), s => B(s))
      case 3 => Wrap(ReadBytes(1, body), s => BOOL(s != [0]))
      case 4 => Ok(NUL, body)
      case 5 =>
        (match ReadU32(body)
         case Fail => Fail
         case Ok(count, rest) => Wrap(DecodeFields(count, rest, map[]), m => M(m)))
      case 6 =>
        (match ReadU32(body)
         case Fail => Fail
         case Ok(count, rest) => Wrap(DecodeList(count, rest), l => L(l)))
      case 7 => Wrap(DecodeCounted(body), ss => SS(ss))
      case 8 => Wrap(DecodeCounted(body), ss => NS(ss))
      case 9 => Wrap(DecodeCounted(body), ss => BS(ss))
      case _ => Fail
  }

  function DecodeList(count: nat, d: ByteString): (r: Result<seq<Value>>)
    ensures r.Ok? ==> |r.rest| <= |d| && |r.value| == count
    decreases |d|, 1, count
  {
    if count == 0 then Ok([], d)
    else match DecodeValue(d)
      case Fail => Fail
      case Ok(v, rest) =>
        match DecodeList(count - 1, rest)
        case Fail => Fail
        case Ok(vs, rest') => Ok([v] + vs, rest')
  }

  /** A repeated name overwrites the earlier one. */
  function DecodeFields(count: nat, d: ByteString, m: map<ByteString, Value>): (r: Result<map<ByteString, Value>>)
    ensures r.Ok? ==> |r.rest| <= |d|
    decreases |d|, 1, count
  {
    if count == 0 then Ok(m, d)
    else match ReadSized(d)
      case Fail => Fail
      case Ok(name, rest) =>
        match DecodeValue(rest)
        case Fail => Fail
        case Ok(v, rest') => DecodeFields(count - 1, rest', m[name := v])
  }

  function DecodeRecord(d: ByteString): (r: Result<Item>) {
    match ReadU32(d)
    case Fail => Fail
    case Ok(count, rest) => DecodeFields(count, rest, map[])
  }

  /** decode_attributes: trailing bytes are not looked at. */
  function DecodeItem(d: ByteString): (r: Option<Item>) {
    match DecodeRecord(d) case Fail => None case Ok(item, _) => Some(item)
  }

  // ---- Locality: what follows a decodable value does not matter ------------------------------------

  lemma U32Extends(d: ByteString, x: ByteString)
    requires ReadU32(d).Ok?
    ensures ReadU32(d + x) == Ok(ReadU32(d).value, ReadU32(d).rest + x)
  {
    assert (d + x)[4..] == d[4..] + x;
  }

  lemma BytesExtend(n: nat, d: ByteString, x: ByteString)
    requires ReadBytes(n, d).Ok?
    ensures ReadBytes(n, d + x) == Ok(ReadBytes(n, d).value, ReadBytes(n, d).rest + x)
  {
    assert (d + x)[..n] == d[..n] && (d + x)[n..] == d[n..] + x;
  }

  lemma SizedExtends(d: ByteString, x: ByteString)
    requires ReadSized(d).Ok?
    ensures ReadSized(d + x) == Ok(ReadSized(d).value, ReadSized(d).rest + x)
  {
    U32Extends(d, x);
    BytesExtend(ReadU32(d).value, ReadU32(d).rest, x);
  }

  lemma {:induction false} StringsExtend(count: nat, d: ByteString, x: ByteString)
    requires DecodeStrings(count, d).Ok?
    ensures DecodeStrings(count, d + x) == Ok(DecodeStrings(count, d).value, DecodeStrings(count, d).rest + x)
    decreases count
  {
    hide U32, ReadU32, ReadBytes, Sized, ReadSized;
    if count > 0 {
      SizedExtends(d, x);
      StringsExtend(count - 1, ReadSized(d).rest, x);
    }
  }

  lemma CountedExtends(d: ByteString, x: ByteString)
    requires DecodeCounted(d).Ok?
    ensures DecodeCounted(d + x) == Ok(DecodeCounted(d).value, DecodeCounted(d).rest + x)
  {
    hide U32, ReadU32, DecodeStrings;
    U32Extends(d, x);
    StringsExtend(ReadU32(d).value, ReadU32(d).rest, x);
  }

  lemma {:induction false} ValueExtends(d: ByteString, x: ByteString)
    requires DecodeValue(d).Ok?
    ensures DecodeValue(d + x) == Ok(DecodeValue(d).value, DecodeValue(d).rest + x)
    decreases |d|, 0
  {
    hide U32, ReadU32, ReadBytes, Sized, ReadSized, DecodeStrings, DecodeCounted, DecodeFields, DecodeList;
    var body := d[1..];
    assert (d + x)[1..] == body + x && (d + x)[0] == d[0];
    match d[0]
    case 0 => SizedExtends(body, x);
    case 1 => SizedExtends(body, x);
    case 2 => SizedExtends(body, x);
    case 3 => BytesExtend(1, body, x);
    case 4 =>
    case 5 =>
      U32Extends(body, x);
      FieldsExtend(ReadU32(body).value, ReadU32(body).rest, map[], x);
    case 6 =>
      U32Extends(body, x);
      ListExtends(ReadU32(body).value, ReadU32(body).rest, x);
    case 7 => CountedExtends(body, x);
    case 8 => CountedExtends(body, x);
    case 9 => CountedExtends(body, x);
  }

  lemma {:induction false} ListExtends(count: nat, d: ByteString, x: ByteString)
    requires DecodeList(count, d).Ok?
    ensures DecodeList(count, d + x) == Ok(DecodeList(count, d).value, DecodeList(count, d).rest + x)
    decreases |d|, 1, count
  {
    hide U32, ReadU32, ReadBytes, Sized, ReadSized, DecodeValue;
    if count > 0 {
      ValueExtends(d, x);
      ListExtends(count - 1, DecodeValue(d).rest, x);
    }
  }

  lemma {:induction false} FieldsExtend(count: nat, d: ByteString, m: map<ByteString, Value>, x: ByteString)
    requires DecodeFields(count, d, m).Ok?
    ensures DecodeFields(count, d + x, m) == Ok(DecodeFields(count, d, m).value, DecodeFields(count, d, m).rest + x)
    decreases |d|, 1, count
  {
    hide U32, ReadU32, ReadBytes, Sized, ReadSized, DecodeValue;
    if count > 0 {
      SizedExtends(d, x);
      var name, rest := ReadSized(d).value, ReadSized(d).rest;
      ValueExtends(rest, x);
      FieldsExtend(count - 1, DecodeValue(rest).rest, m[name := DecodeValue(rest).value], x);
    }
  }

  lemma RecordExtends(d: ByteString, x: ByteString)
    requires DecodeRecord(d).Ok?
    ensures DecodeRecord(d + x) == Ok(DecodeRecord(d).value, DecodeRecord(d).rest + x)
  {
    hide ReadU32, DecodeFields;
    U32Extends(d, x);
    FieldsExtend(ReadU32(d).value, ReadU32(d).rest, map[], x);
  }

  // ---- Round trip ----------------------------------------------------------------------------------

  ghost predicate SmallStrings(ss: seq<ByteString>) {
    |ss| < WORD && forall i | 0 <= i < |ss| :: |ss[i]| < WORD
  }

  /** Every length and count fits in 32 bits. */
  ghost predicate Small(v: Value)
    decreases v
  {
    match v
    case S(s) => |s| < WORD
    case N(n) => |n| < WORD
    case B(b) => |b| < WORD
    case BOOL(_) => true
    case NUL => true
    case M(fields) => |fields| < WORD && forall k | k in fields :: |k| < WORD && Small(fields[k])
    case L(elems) => |elems| < WORD && forall i | 0 <= i < |elems| :: Small(elems[i])
    case SS(ss) => SmallStrings(ss)
    case NS(ss) => SmallStrings(ss)
    case BS(ss) => SmallStrings(ss)
  }

  lemma {:induction false} StringsRoundTrip(ss: seq<ByteString>, x: ByteString)
    requires forall i | 0 <= i < |ss| :: |ss[i]| < WORD
    ensures DecodeStrings(|ss|, EncodeStrings(ss) + x) == Ok(ss, x)
  {
    hide U32, ReadU32, ReadBytes, Sized, ReadSized;
    if ss == [] {
      assert EncodeStrings(ss) + x == x;
    } else {
      assert EncodeStrings(ss) + x == Sized(ss[0]) + (EncodeStrings(ss[1..]) + x);
      SizedRoundTrip(ss[0], EncodeStrings(ss[1..]) + x);
      StringsRoundTrip(ss[1..], x);
      assert ss == [ss[0]] + ss[1..];
    }
  }

  lemma Regroup(a: ByteString, b: ByteString, c: ByteString)
    ensures (a + b) + c == a + (b + c)
  {
  }

  lemma CountedRoundTrip(ss: seq<ByteString>, x: ByteString)
    requires SmallStrings(ss)
    ensures DecodeCounted(U32(|ss|) + EncodeStrings(ss) + x) == Ok(ss, x)
  {
    hide U32, ReadU32, DecodeStrings, EncodeStrings;
    Regroup(U32(|ss|), EncodeStrings(ss), x);
    U32Small(|ss|, EncodeStrings(ss) + x);
    StringsRoundTrip(ss, x);
  }

  /** The bytes after the tag. */
  function Body(v: Value): (r: ByteString) {
    match v
    case S(s) => Sized(s)
    case N(n) => Sized(n)
    case B(b) => Sized(b)
    case BOOL(flag) => [if flag then 1 else 0]
    case NUL => []
    case M(fields) =>
      SortedEnumerates(fields.Keys);
      U32(|fields|) + EncodeFields(v, Sorted(fields.Keys))
    case L(elems) => U32(|elems|) + EncodeList(elems)
    case SS(ss) => U32(|ss|) + EncodeStrings(ss)
    case NS(ss) => U32(|ss|) + EncodeStrings(ss)
    case BS(ss) => U32(|ss|) + EncodeStrings(ss)
  }

  function Tag(v: Value): (t: Byte) {
    match v
    case S(_) => 0 case N(_) => 1 case B(_) => 2 case BOOL(_) => 3 case NUL => 4
    case M(_) => 5 case L(_) => 6 case SS(_) => 7 case NS(_) => 8 case BS(_) => 9
  }

  lemma TagAndBody(v: Value, x: ByteString)
    ensures EncodeValue(v) == [Tag(v)] + Body(v)
    ensures EncodeValue(v) + x != [] && (EncodeValue(v) + x)[0] == Tag(v) && (EncodeValue(v) + x)[1..] == Body(v) + x
  {
    hide U32, Sized, EncodeFields, EncodeList, EncodeStrings, Sorted;
    assert EncodeValue(v) == [Tag(v)] + Body(v);
    assert ([Tag(v)] + Body(v)) + x == [Tag(v)] + (Body(v) + x);
  }

  /** decode_value after its tag byte. */
  lemma {:induction false} ValueRoundTrip(v: Value, x: ByteString)
    requires Small(v)
    ensures DecodeValue(EncodeValue(v) + x) == Ok(v, x)
    decreases v, 1
  {
    TagAndBody(v, x);
    hide U32, ReadU32, Sized, ReadSized, EncodeValue, EncodeFields, EncodeList, EncodeStrings, DecodeFields,
        DecodeList, DecodeStrings, DecodeCounted, Sorted;
    match v
    case S(s) => SizedRoundTrip(s, x);
    case N(n) => SizedRoundTrip(n, x);
    case B(b) => SizedRoundTrip(b, x);
    case BOOL(flag) => assert (Body(v) + x)[..1] == Body(v) && (Body(v) + x)[1..] == x;
    case NUL => assert Body(v) + x == x;
    case M(fields) => MapRoundTrip(v, x);
    case L(elems) => ListBodyRoundTrip(v, x);
    case SS(ss) => CountedRoundTrip(ss, x);
    case NS(ss) => CountedRoundTrip(ss, x);
    case BS(ss) => CountedRoundTrip(ss, x);
  }

  lemma {:induction false} MapRoundTrip(v: Value, x: ByteString)
    requires v.M? && Small(v)
    ensures ReadU32(Body(v) + x).Ok? && DecodeFields(ReadU32(Body(v) + x).value, ReadU32(Body(v) + x).rest, map[])
            == Ok(v.fields, x)
    decreases v, 0, 1
  {
    assert |v.fields| < WORD;
    hide U32, ReadU32, EncodeFields, DecodeFields, Sorted, Small, Only;
    var names := Sorted(v.fields.Keys);
    AllFields(v.fields);
    Regroup(U32(|v.fields|), EncodeFields(v, names), x);
    U32Small(|v.fields|, EncodeFields(v, names) + x);
    FieldsRoundTrip(v, names, map[], x);
  }

  lemma AllFields(fields: map<ByteString, Value>)
    ensures forall k :: k in Sorted(fields.Keys) <==> k in fields
    ensures |Sorted(fields.Keys)| == |fields|
    ensures map[] + Only(fields, Sorted(fields.Keys)) == fields
  {
    SortedEnumerates(fields.Keys);
    SortedCount(fields.Keys);
  }

  lemma {:induction false} FieldsRoundTrip(v: Value, names: seq<ByteString>, m: map<ByteString, Value>, x: ByteString)
    requires v.M? && Small(v) && forall k | k in names :: k in v.fields
    ensures DecodeFields(|names|, EncodeFields(v, names) + x, m) == Ok(m + Only(v.fields, names), x)
    decreases v, 0, 0, |names|
  {
    hide U32, ReadU32, ReadBytes, Sized, ReadSized, EncodeValue, DecodeValue, Only, Small;
    if names == [] {
      assert EncodeFields(v, names) + x == x;
      NoFields(v, m);
    } else {
      var k := names[0];
      var tail := EncodeFields(v, names[1..]) + x;
      SmallField(v, k);
      assert EncodeFields(v, names) + x == Sized(k) + (EncodeValue(v.fields[k]) + tail);
      SizedRoundTrip(k, EncodeValue(v.fields[k]) + tail);
      ValueRoundTrip(v.fields[k], tail);
      FieldsRoundTrip(v, names[1..], m[k := v.fields[k]], x);
      OneMoreField(v, names, m);
    }
  }

  lemma SmallField(v: Value, k: ByteString)
    requires v.M? && Small(v) && k in v.fields
    ensures |k| < WORD && Small(v.fields[k])
  {
  }

  lemma NoFields(v: Value, m: map<ByteString, Value>)
    requires v.M?
    ensures m + Only(v.fields, []) == m
  {
  }

  lemma OneMoreField(v: Value, names: seq<ByteString>, m: map<ByteString, Value>)
    requires v.M? && names != [] && forall k | k in names :: k in v.fields
    ensures m[names[0] := v.fields[names[0]]] + Only(v.fields, names[1..]) == m + Only(v.fields, names)
  {
    assert names == [names[0]] + names[1..];
  }

  lemma {:induction false} ListBodyRoundTrip(v: Value, x: ByteString)
    requires v.L? && Small(v)
    ensures ReadU32(Body(v) + x).Ok? && DecodeList(ReadU32(Body(v) + x).value, ReadU32(Body(v) + x).rest)
            == Ok(v.elems, x)
    decreases v, 0
  {
    hide U32, ReadU32, EncodeList, DecodeList;
    Regroup(U32(|v.elems|), EncodeList(v.elems), x);
    U32Small(|v.elems|, EncodeList(v.elems) + x);
    ListRoundTrip(v.elems, x);
  }

  lemma {:induction false} ListRoundTrip(elems: seq<Value>, x: ByteString)
    requires forall i | 0 <= i < |elems| :: Small(elems[i])
    ensures DecodeList(|elems|, EncodeList(elems) + x) == Ok(elems, x)
    decreases elems, 0
  {
    hide U32, ReadU32, ReadBytes, Sized, ReadSized, DecodeValue, EncodeValue, Small;
    if elems == [] {
      assert EncodeList(elems) + x == x;
    } else {
      assert EncodeList(elems) + x == EncodeValue(elems[0]) + (EncodeList(elems[1..]) + x);
      ValueRoundTrip(elems[0], EncodeList(elems[1..]) + x);
      ListRoundTrip(elems[1..], x);
      assert elems == [elems[0]] + elems[1..];
    }
  }

  lemma {:induction false} SortedCount(s: set<ByteString>)
    ensures |Sorted(s)| == |s|
    decreases |s|
  {
    if s != {} {
      SortedCount(s - {MinKey(s)});
    }
  }

  /** encode_attributes then decode_attributes gives the item back, and every byte is used. */
  lemma ItemRoundTrip(item: Item, x: ByteString)
    requires Small(M(item))
    ensures DecodeRecord(EncodeItem(item) + x) == Ok(item, x)
  {
    hide U32, ReadU32, EncodeFields, DecodeFields, Sorted, Small;
    assert Body(M(item)) == EncodeItem(item);
    MapRoundTrip(M(item), x);
  }

  /** A record cut short anywhere does not decode. */
  lemma CutRecordFails(item: Item, k: nat)
    requires Small(M(item)) && k < |EncodeItem(item)|
    ensures DecodeItem(EncodeItem(item)[..k]).None?
  {
    hide EncodeItem, DecodeRecord, Small;
    var e := EncodeItem(item);
    ItemRoundTrip(item, []);
    assert e + [] == e && e[..k] + e[k..] == e;
    if DecodeRecord(e[..k]).Ok? {
      RecordExtends(e[..k], e[k..]);
    }
  }

  lemma CutValueFails(v: Value, k: nat)
    requires Small(v) && k < |EncodeValue(v)|
    ensures DecodeValue(EncodeValue(v)[..k]).Fail?
  {
    hide EncodeValue, DecodeValue, Small;
    var e := EncodeValue(v);
    ValueRoundTrip(v, []);
    assert e + [] == e && e[..k] + e[k..] == e;
    if DecodeValue(e[..k]).Ok? {
      ValueExtends(e[..k], e[k..]);
    }
  }

  // ---- Only small values come back -----------------------------------------------------------------

  lemma {:induction false} StringsSmall(count: nat, d: ByteString)
    requires DecodeStrings(count, d).Ok?
    ensures forall i | 0 <= i < count :: |DecodeStrings(count, d).value[i]| < WORD
    decreases count
  {
    hide ReadU32, ReadBytes;
    if count > 0 {
      StringsSmall(count - 1, ReadSized(d).rest);
    }
  }

  lemma CountedSmall(d: ByteString)
    requires DecodeCounted(d).Ok?
    ensures SmallStrings(DecodeCounted(d).value)
  {
    StringsSmall(ReadU32(d).value, ReadU32(d).rest);
  }

  lemma {:induction false} DecodedSmall(d: ByteString)
    requires DecodeValue(d).Ok?
    ensures Small(DecodeValue(d).value)
    decreases |d|, 0
  {
    hide ReadU32, ReadBytes, ReadSized, DecodeStrings, DecodeCounted, DecodeFields, DecodeList;
    var body := d[1..];
    match d[0]
    case 5 => FieldsSmall(ReadU32(body).value, ReadU32(body).rest, map[]);
    case 6 => ListSmall(ReadU32(body).value, ReadU32(body).rest);
    case 7 => CountedSmall(body);
    case 8 => CountedSmall(body);
    case 9 => CountedSmall(body);
    case _ =>
  }

  lemma {:induction false} ListSmall(count: nat, d: ByteString)
    requires DecodeList(count, d).Ok?
    ensures forall i | 0 <= i < count :: Small(DecodeList(count, d).value[i])
    decreases |d|, 1, count
  {
    hide DecodeValue, Small;
    if count > 0 {
      DecodedSmall(d);
      ListSmall(count - 1, DecodeValue(d).rest);
    }
  }

  lemma OneMoreName(m: map<ByteString, Value>, name: ByteString, v: Value)
    ensures |m[name := v]| <= |m| + 1
  {
    assert m[name := v].Keys == m.Keys + {name};
  }

  lemma {:induction false} FieldsSmall(count: nat, d: ByteString, m: map<ByteString, Value>)
    requires DecodeFields(count, d, m).Ok? && forall k | k in m :: |k| < WORD && Small(m[k])
    ensures var r := DecodeFields(count, d, m).value;
            |r| <= |m| + count && forall k | k in r :: |k| < WORD && Small(r[k])
    decreases |d|, 1, count
  {
    hide DecodeValue, Small, ReadU32, ReadBytes, ReadSized;
    if count > 0 {
      var name, rest := ReadSized(d).value, ReadSized(d).rest;
      DecodedSmall(rest);
      var v := DecodeValue(rest).value;
      OneMoreName(m, name, v);
      FieldsSmall(count - 1, DecodeValue(rest).rest, m[name := v]);
    }
  }

  /** A value survives the codec exactly when all its lengths fit in 32 bits. */
  lemma RoundTripIff(v: Value)
    ensures DecodeValue(EncodeValue(v)) == Ok(v, []) <==> Small(v)
  {
    hide EncodeValue, DecodeValue, Small;
    if Small(v) {
      ValueRoundTrip(v, []);
      assert EncodeValue(v) + [] == EncodeValue(v);
    } else if DecodeValue(EncodeValue(v)).Ok? {
      DecodedSmall(EncodeValue(v));
    }
  }

  /** A string of 2^32 bytes is written with length zero, and comes back empty. */
  lemma LongStringIsLost(s: ByteString)
    requires |s| == WORD
    ensures DecodeValue(EncodeValue(S(s))) == Ok(S([]), s)
  {
    hide U32, ReadU32;
    var d := EncodeValue(S(s));
    assert d[1..] == U32(|s|) + s;
    U32RoundTrip(|s|, s);
    assert s[..0] == [] && s[0..] == s;
  }

  // ---- A short encoding is the encoding of a small value --------------------------------------------

  lemma {:induction false} StringsLength(ss: seq<ByteString>)
    ensures |ss| <= |EncodeStrings(ss)| && forall i | 0 <= i < |ss| :: |ss[i]| <= |EncodeStrings(ss)|
  {
    hide U32, Sized;
    if ss != [] {
      StringsLength(ss[1..]);
    }
  }

  lemma {:induction false} ListLength(elems: seq<Value>)
    ensures |elems| <= |EncodeList(elems)|
            && forall i | 0 <= i < |elems| :: |EncodeValue(elems[i])| <= |EncodeList(elems)|
  {
    hide EncodeValue;
    if elems != [] {
      ListLength(elems[1..]);
    }
  }

  lemma {:induction false} FieldsLength(v: Value, names: seq<ByteString>)
    requires v.M? && forall k | k in names :: k in v.fields
    ensures |names| <= |EncodeFields(v, names)|
    ensures forall k | k in names ::
            |k| <= |EncodeFields(v, names)| && |EncodeValue(v.fields[k])| <= |EncodeFields(v, names)|
  {
    hide EncodeValue, Sized;
    if names != [] {
      FieldsLength(v, names[1..]);
      assert names == [names[0]] + names[1..];
    }
  }

  lemma {:induction false} ShortIsSmall(v: Value)
    requires |EncodeValue(v)| < WORD
    ensures Small(v)
    decreases v
  {
    TagAndBody(v, []);
    hide EncodeValue, EncodeFields, EncodeList, EncodeStrings, Sorted, U32;
    match v {
      case M(fields) =>
        AllFields(fields);
        FieldsLength(v, Sorted(fields.Keys));
        forall k | k in fields ensures |k| < WORD && Small(fields[k]) {
          assert k in Sorted(fields.Keys);
          ShortIsSmall(fields[k]);
        }
      case L(elems) =>
        ListLength(elems);
        forall i | 0 <= i < |elems| ensures Small(elems[i]) {
          ShortIsSmall(elems[i]);
        }
      case SS(ss) => StringsLength(ss);
      case NS(ss) => StringsLength(ss);
      case BS(ss) => StringsLength(ss);
      case _ =>
    }
  }

  // ---- The reader ----------------------------------------------------------------------------------

  /** A method's result against the specification, with what it leaves unread. */
  ghost predicate Agrees<T>(r: Option<T>, spec: Result<T>, left: ByteString) {
    match spec case Fail => r.None? case Ok(x, rest) => r == Some(x) && left == rest
  }

  class Reader {
    const data: ByteString
    var pos: nat

    ghost predicate Valid()
      reads this
    {
      pos <= |data|
    }

    ghost function Left(): (r: ByteString)
      requires Valid()
      reads this
    {
      data[pos..]
    }

    constructor (data: ByteString)
      ensures Valid() && Left() == data && this.data == data
    {
      this.data, pos := data, 0;
    }

    method NextU32() returns (r: Option<nat>)
      requires Valid()
      modifies this
      ensures Valid() && pos >= old(pos) && Agrees(r, ReadU32(old(Left())), Left())
    {
      if pos + 4 > |data| {
        return None;
      }
      var a: nat, b: nat, c: nat, e: nat := data[pos], data[pos + 1], data[pos + 2], data[pos + 3];
      assert Left()[4..] == data[pos + 4..];
      pos := pos + 4;
      return Some(a + 256 * b + 65536 * c + 16777216 * e);
    }

    method NextBytes(n: nat) returns (r: Option<ByteString>)
      requires Valid()
      modifies this
      ensures Valid() && pos >= old(pos) && Agrees(r, ReadBytes(n, old(Left())), Left())
    {
      if pos + n > |data| {
        return None;
      }
      r := Some(data[pos..pos + n]);
      assert Left()[..n] == data[pos..pos + n] && Left()[n..] == data[pos + n..];
      pos := pos + n;
    }

    method NextSized() returns (r: Option<ByteString>)
      requires Valid()
      modifies this
      ensures Valid() && pos >= old(pos) && Agrees(r, ReadSized(old(Left())), Left())
    {
      hide ReadU32, ReadBytes;
      var n := NextU32();
      if n.None? {
        return None;
      }
      r := NextBytes(n.value);
    }

    method NextStrings() returns (r: Option<seq<ByteString>>)
      requires Valid()
      modifies this
      ensures Valid() && pos >= old(pos) && Agrees(r, DecodeCounted(old(Left())), Left())
    {
      hide ReadU32, ReadBytes, ReadSized;
      var n := NextU32();
      if n.None? {
        return None;
      }
      ghost var start := Left();
      var ss: seq<ByteString> := [];
      var i := 0;
      PrependNone(DecodeStrings(n.value, start));
      while i < n.value
        invariant 0 <= i <= n.value && Valid() && pos >= old(pos)
        invariant DecodeStrings(n.value, start) == Prepend(ss, DecodeStrings(n.value - i, Left()))
      {
        ghost var before := Left();
        var s := NextSized();
        if s.None? {
          return None;
        }
        PrependOne(ss, s.value, DecodeStrings(n.value - i - 1, Left()));
        ss := ss + [s.value];
        i := i + 1;
      }
      assert ss + [] == ss;
      return Some(ss);
    }

    /** decode_value. */
    method NextValue() returns (r: Option<Value>)
      requires Valid()
      modifies this
      ensures Valid() && pos >= old(pos) && Agrees(r, DecodeValue(old(Left())), Left())
      decreases |data| - pos, 0
    {
      hide ReadU32, ReadBytes, ReadSized, DecodeCounted, DecodeStrings, DecodeList, DecodeFields;
      if pos + 1 > |data| {
        return None;
      }
      ghost var start := Left();
      var tag := data[pos];
      pos := pos + 1;
      assert Left() == start[1..] && start[0] == tag;
      if tag <= 2 {
        var s := NextSized();
        return if s.None? then None else Some(if tag == 0 then S(s.value) else if tag == 1 then N(s.value)
            else B(s.value));
      } else if tag == 3 {
        var b := NextBytes(1);
        return if b.None? then None else Some(BOOL(b.value != [0]));
      } else if tag == 4 {
        return Some(NUL);
      } else if tag == 5 {
        var m := NextFields();
        return if m.None? then None else Some(M(m.value));
      } else if tag == 6 {
        var l := NextList();
        return if l.None? then None else Some(L(l.value));
      } else if tag <= 9 {
        var ss := NextStrings();
        return if ss.None? then None else Some(if tag == 7 then SS(ss.value) else if tag == 8 then NS(ss.value)
            else BS(ss.value));
      }
      return None;
    }

    method NextList() returns (r: Option<seq<Value>>)
      requires Valid()
      modifies this
      ensures Valid() && pos >= old(pos)
      ensures match ReadU32(old(Left())) case Fail => r.None? case Ok(n, rest) => Agrees(r, DecodeList(n, rest), Left())
      decreases |data| - pos, 1
    {
      hide ReadU32, DecodeValue;
      var n := NextU32();
      if n.None? {
        return None;
      }
      ghost var start := Left();
      var vs: seq<Value> := [];
      var i := 0;
      PrependNone(DecodeList(n.value, start));
      while i < n.value
        invariant 0 <= i <= n.value && Valid() && pos >= old(pos)
        invariant DecodeList(n.value, start) == Prepend(vs, DecodeList(n.value - i, Left()))
      {
        var v := NextValue();
        if v.None? {
          return None;
        }
        PrependOne(vs, v.value, DecodeList(n.value - i - 1, Left()));
        vs := vs + [v.value];
        i := i + 1;
      }
      assert vs + [] == vs;
      return Some(vs);
    }

    /** The entries of a map, and decode_attributes. */
    method NextFields() returns (r: Option<map<ByteString, Value>>)
      requires Valid()
      modifies this
      ensures Valid() && pos >= old(pos)
      ensures Agrees(r, DecodeRecord(old(Left())), Left())
      decreases |data| - pos, 1
    {
      hide ReadU32, DecodeValue, ReadSized;
      var n := NextU32();
      if n.None? {
        return None;
      }
      ghost var start := Left();
      var m: map<ByteString, Value> := map[];
      var i := 0;
      while i < n.value
        invariant 0 <= i <= n.value && Valid() && pos >= old(pos)
        invariant DecodeFields(n.value, start, map[]) == DecodeFields(n.value - i, Left(), m)
      {
        var name := NextSized();
        if name.None? {
          return None;
        }
        var v := NextValue();
        if v.None? {
          return None;
        }
        m := m[name.value := v.value];
        i := i + 1;
      }
      return Some(m);
    }
  }

  ghost function Prepend<T>(a: seq<T>, r: Result<seq<T>>): (s: Result<seq<T>>) {
    match r case Fail => Fail case Ok(b, rest) => Ok(a + b, rest)
  }

  lemma PrependOne<T>(a: seq<T>, x: T, r: Result<seq<T>>)
    ensures r.Ok? ==> Prepend(a + [x], r) == Ok(a + ([x] + r.value), r.rest)
  {
    if r.Ok? {
      assert (a + [x]) + r.value == a + ([x] + r.value);
    }
  }

  lemma PrependNone<T>(r: Result<seq<T>>)
    ensures Prepend([], r) == r
  {
    if r.Ok? {
      assert [] + r.value == r.value;
    }
  }

  // ---- The writer ----------------------------------------------------------------------------------

  method AppendStrings(out: ByteString, ss: seq<ByteString>) returns (r: ByteString)
    ensures r == out + (U32(|ss|) + EncodeStrings(ss))
  {
    hide U32, Sized;
    r := out + U32(|ss|);
    var i := 0;
    assert ss[0..] == ss;
    Regroup(out, U32(|ss|), EncodeStrings(ss));
    while i < |ss|
      invariant 0 <= i <= |ss| && r + EncodeStrings(ss[i..]) == out + (U32(|ss|) + EncodeStrings(ss))
    {
      assert ss[i..][0] == ss[i] && ss[i..][1..] == ss[i + 1..];
      Regroup(r, Sized(ss[i]), EncodeStrings(ss[i + 1..]));
      r := r + Sized(ss[i]);
      i := i + 1;
    }
  }

  /** encode_value. */
  method AppendValue(out: ByteString, v: Value) returns (r: ByteString)
    ensures r == out + EncodeValue(v)
    decreases v, 1
  {
    TagAndBody(v, []);
    Regroup(out, [Tag(v)], Body(v));
    hide EncodeValue, EncodeFields, EncodeList, EncodeStrings, U32, Sized, Sorted;
    r := out + [Tag(v)];
    match v {
      case S(s) => r := r + Sized(s);
      case N(n) => r := r + Sized(n);
      case B(b) => r := r + Sized(b);
      case BOOL(flag) => r := r + [if flag then 1 else 0];
      case NUL => assert Body(v) == [];
      case M(fields) => r := AppendFields(r, v);
      case L(elems) => r := AppendList(r, elems);
      case SS(ss) => r := AppendStrings(r, ss);
      case NS(ss) => r := AppendStrings(r, ss);
      case BS(ss) => r := AppendStrings(r, ss);
    }
  }

  method AppendList(out: ByteString, elems: seq<Value>) returns (r: ByteString)
    ensures r == out + (U32(|elems|) + EncodeList(elems))
    decreases elems, 0
  {
    hide U32, EncodeValue;
    r := out + U32(|elems|);
    var i := 0;
    assert elems[0..] == elems;
    Regroup(out, U32(|elems|), EncodeList(elems));
    while i < |elems|
      invariant 0 <= i <= |elems| && r + EncodeList(elems[i..]) == out + (U32(|elems|) + EncodeList(elems))
    {
      assert elems[i..][0] == elems[i] && elems[i..][1..] == elems[i + 1..];
      Regroup(r, EncodeValue(elems[i]), EncodeList(elems[i + 1..]));
      r := AppendValue(r, elems[i]);
      i := i + 1;
    }
  }

  /** The entries of a map in key order. */
  method AppendFields(out: ByteString, v: Value) returns (r: ByteString)
    requires v.M?
    ensures r == out + Body(v)
    decreases v, 0
  {
    var names := Sorted(v.fields.Keys);
    AllFields(v.fields);
    hide U32, Sized, EncodeValue, Sorted;
    r := out + U32(|v.fields|);
    Regroup(out, U32(|v.fields|), EncodeFields(v, names));
    var i := 0;
    assert names[0..] == names;
    while i < |names|
      invariant 0 <= i <= |names| && r + EncodeFields(v, names[i..]) == out + Body(v)
    {
      assert names[i] in names;
      assert names[i..][0] == names[i] && names[i..][1..] == names[i + 1..];
      FieldStep(r, v, names, i);
      r := AppendValue(r + Sized(names[i]), v.fields[names[i]]);
      i := i + 1;
    }
  }

  lemma FieldStep(r: ByteString, v: Value, names: seq<ByteString>, i: nat)
    requires v.M? && i < |names| && forall k | k in names :: k in v.fields
    ensures r + EncodeFields(v, names[i..])
            == ((r + Sized(names[i])) + EncodeValue(v.fields[names[i]])) + EncodeFields(v, names[i + 1..])
  {
    hide Sized, EncodeValue;
    assert names[i..][0] == names[i] && names[i..][1..] == names[i + 1..];
  }

  /** encode_attributes. */
  method EncodeAttributes(item: Item) returns (r: ByteString)
    ensures r == EncodeItem(item)
  {
    r := AppendFields([], M(item));
  }
}
