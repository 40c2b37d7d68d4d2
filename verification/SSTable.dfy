/** The SSTable file format and its binary searches (src/engine/lsm/sstable.cpp). */
module SSTables {
  import opened Bytes
  import opened Values
  import opened Layers
  import opened KWayMerge
  import opened SortedKeys
  import opened RecordCodec
  import opened MergedReaders

  // ---- Writing -------------------------------------------------------------------------------------

  function EncodeAttrs(item: Item, names: seq<ByteString>): (r: ByteString)
    requires forall k | k in names :: k in item
  {
    if names == [] then [] else Sized(names[0]) + Sized(EncodeValue(item[names[0]])) + EncodeAttrs(item, names[1..])
  }

  /** One record of the data area. */
  function RecordBytes(row: Row): (r: ByteString)
    ensures |r| > 0
  {
    SortedEnumerates(row.entry.item.Keys);
    Sized(row.key) + [if row.entry.deleted then 1
        else 0] + U32(|row.entry.item|) + EncodeAttrs(row.entry.item, Sorted(row.entry.item.Keys))
  }

  function DataBytes(rows: seq<Row>): (r: ByteString) {
    if rows == [] then [] else RecordBytes(rows[0]) + DataBytes(rows[1..])
  }

  function IndexBytes(rows: seq<Row>, offset: nat): (r: ByteString) {
    if rows == [] then []
    else Sized(rows[0].key) + U64(offset) + IndexBytes(rows[1..], offset + |RecordBytes(rows[0])|)
  }

  /** Data, entry count, index, and where the index begins. */
  function FileBytes(rows: seq<Row>): (r: ByteString) {
    DataBytes(rows) + (U32(|rows|) + IndexBytes(rows, 0) + U64(|DataBytes(rows)|))
  }

  /** What append accepts of an entry by itself. */
  ghost predicate Writable(row: Row) {
    && row.key != [] && |row.key| < WORD && |row.entry.item| < WORD
    && forall k | k in row.entry.item :: AttrWritable(row.entry.item, k)
  }

  /** The rows of a finished file: each writable, keys strictly increasing, offsets within 64 bits. */
  ghost predicate Finished(rows: seq<Row>) {
    && |rows| < WORD && Ordered(rows, true) && |FileBytes(rows)| < WORD * WORD
    && forall i | 0 <= i < |rows| :: Writable(rows[i])
  }

  // ---- Loading -------------------------------------------------------------------------------------

  /** An opened file: where its data ends, and where each index entry begins. */
  datatype Table = Table(file: ByteString, dataEnd: nat, offsets: seq<nat>)

  /** load_index's loop over the index area. */
  function ScanIndex(d: ByteString, dataEnd: nat, count: nat, pos: nat): (r: Option<seq<nat>>)
    decreases count
  {
    if count == 0 then (if d == [] then Some([]) else None)
    else match ReadSized(d)
      case Fail => None
      case Ok(key, rest) =>
        if |rest| < 8 || ReadU64(rest) >= dataEnd then None
        else match ScanIndex(rest[8..], dataEnd, count - 1, pos + |key| + 12)
          case None => None
          case Some(ps) => Some([pos] + ps)
  }

  function LoadIndex(file: ByteString): (r: Option<Table>) {
    if |file| < 12 then None
    else
      var dataEnd := ReadU64(file[|file| - 8..]);
      if dataEnd > |file| - 12 then None
      else
        var index := file[dataEnd..|file| - 8];
        var count := WordAt(index);
        if count > (|index| - 4) / 12 then None
        else match ScanIndex(index[4..], dataEnd, count, dataEnd + 4)
          case None => None
          case Some(ps) => Some(Table(file, dataEnd, ps))
  }

  /** index_entry. */
  function IndexAt(t: Table, i: nat): (r: Option<(ByteString, nat)>)
  {
    if i >= |t.offsets| || t.offsets[i] > |t.file| then None
    else match ReadSized(t.file[t.offsets[i]..])
      case Fail => None
      case Ok(key, rest) => if |rest| < 8 then None else Some((key, ReadU64(rest)))
  }

  /** The attribute loop of read_entry; a repeated name keeps its first value. */
  function DecodeAttrs(count: nat, d: ByteString, m: Item): (r: Option<Item>)
    decreases count
  {
    if count == 0 then Some(m)
    else match ReadSized(d)
      case Fail => None
      case Ok(name, rest) =>
        match ReadSized(rest)
        case Fail => None
        case Ok(encoded, rest') =>
          match DecodeValue(encoded)
          case Fail => None
          case Ok(v, _) => DecodeAttrs(count - 1, rest', if name in m then m else m[name := v])
  }

  /** read_entry's parse of one record. */
  function ParseRecord(d: ByteString, key: ByteString): (r: Option<Entry>) {
    match ReadSized(d)
    case Fail => None
    case Ok(k, rest) =>
      if k != key || |rest| < 5 then None
      else match DecodeAttrs(WordAt(rest[1..]), rest[5..], map[])
        case None => None
        case Some(item) => Some(Entry(item, rest[0] != 0))
  }

  function ReadEntry(t: Table, i: nat): (r: Option<Entry>) {
    match IndexAt(t, i)
    case None => None
    case Some((key, offset)) => if offset > t.dataEnd || t.dataEnd > |t.file| then None
        else ParseRecord(t.file[offset..t.dataEnd], key)
  }

  // ---- Where things are ----------------------------------------------------------------------------

  /** Where each index entry begins. */
  function Positions(rows: seq<Row>, pos: nat): (r: seq<nat>)
    ensures |r| == |rows|
  {
    if rows == [] then [] else [pos] + Positions(rows[1..], pos + |rows[0].key| + 12)
  }

  lemma {:induction false} DataSplits(rows: seq<Row>, i: nat)
    requires i <= |rows|
    ensures DataBytes(rows) == DataBytes(rows[..i]) + DataBytes(rows[i..])
  {
    hide RecordBytes;
    if i == 0 {
      assert rows[..0] == [] && rows[0..] == rows;
    } else {
      DataSplits(rows[1..], i - 1);
      assert rows[..i][0] == rows[0] && rows[..i][1..] == rows[1..][..i - 1] && rows[1..][i - 1..] == rows[i..];
    }
  }

  lemma {:induction false} IndexSuffix(rows: seq<Row>, offset: nat, pos: nat, i: nat)
    requires i < |rows|
    ensures var at := Positions(rows, pos)[i] - pos;
            && 0 <= at <= |IndexBytes(rows, offset)|
            && IndexBytes(rows, offset)[at..] == IndexBytes(rows[i..], offset + |DataBytes(rows[..i])|)
    decreases i
  {
    hide RecordBytes, DataBytes, IndexBytes, Positions, Sized, U64;
    FirstEntry(rows, offset, pos);
    if i == 0 {
      assert rows[0..] == rows;
      EmptyData(rows);
    } else {
      var n := |rows[0].key| + 12;
      var rest := IndexBytes(rows[1..], offset + |RecordBytes(rows[0])|);
      IndexSuffix(rows[1..], offset + |RecordBytes(rows[0])|, pos + n, i - 1);
      DataPrefix(rows, i);
      assert rows[1..][i - 1..] == rows[i..];
      SuffixOfTail(Sized(rows[0].key) + U64(offset), rest, Positions(rows[1..], pos + n)[i - 1] - (pos + n));
    }
  }

  lemma FirstEntry(rows: seq<Row>, offset: nat, pos: nat)
    requires rows != []
    ensures IndexBytes(rows, offset) ==
            (Sized(rows[0].key) + U64(offset)) + IndexBytes(rows[1..], offset + |RecordBytes(rows[0])|)
    ensures |Sized(rows[0].key) + U64(offset)| == |rows[0].key| + 12
    ensures Positions(rows, pos)[0] == pos
    ensures forall i | 0 < i < |rows| ::
            Positions(rows, pos)[i] == Positions(rows[1..], pos + |rows[0].key| + 12)[i - 1]
  {
    hide RecordBytes, U64;
  }

  lemma EmptyData(rows: seq<Row>)
    ensures DataBytes(rows[..0]) == []
  {
  }

  lemma DataPrefix(rows: seq<Row>, i: nat)
    requires 0 < i <= |rows|
    ensures DataBytes(rows[..i]) == RecordBytes(rows[0]) + DataBytes(rows[1..][..i - 1])
  {
    hide RecordBytes;
    assert rows[..i][0] == rows[0] && rows[..i][1..] == rows[1..][..i - 1];
  }

  lemma SuffixOfTail(head: ByteString, tail: ByteString, at: nat)
    requires at <= |tail|
    ensures (head + tail)[|head| + at..] == tail[at..]
  {
  }

  // ---- A finished file loads -----------------------------------------------------------------------

  lemma {:induction false} ScanAccepts(rows: seq<Row>, offset: nat, dataEnd: nat, pos: nat)
    requires forall i | 0 <= i < |rows| :: |rows[i].key| < WORD
    requires offset + |DataBytes(rows)| <= dataEnd < WORD * WORD
    ensures ScanIndex(IndexBytes(rows, offset), dataEnd, |rows|, pos) == Some(Positions(rows, pos))
    decreases |rows|
  {
    hide RecordBytes, Sized, ReadSized, U64, ReadU64;
    if rows != [] {
      var tail := IndexBytes(rows[1..], offset + |RecordBytes(rows[0])|);
      assert IndexBytes(rows, offset) == Sized(rows[0].key) + (U64(offset) + tail);
      SizedRoundTrip(rows[0].key, U64(offset) + tail);
      U64RoundTrip(offset, tail);
      assert (U64(offset) + tail)[8..] == tail;
      ScanAccepts(rows[1..], offset + |RecordBytes(rows[0])|, dataEnd, pos + |rows[0].key| + 12);
    }
  }

  lemma {:induction false} IndexLength(rows: seq<Row>, offset: nat)
    ensures |IndexBytes(rows, offset)| >= 12 * |rows|
  {
    hide RecordBytes;
    if rows != [] {
      IndexLength(rows[1..], offset + |RecordBytes(rows[0])|);
    }
  }

  function Opened(rows: seq<Row>): (t: Table) {
    Table(FileBytes(rows), |DataBytes(rows)|, Positions(rows, |DataBytes(rows)| + 4))
  }

  lemma FooterOf(d: ByteString, w: ByteString, x: ByteString, n: nat)
    requires |w| == 4 && n < WORD * WORD
    ensures var file := d + (w + x + U64(n));
            && |file| == |d| + 12 + |x| && ReadU64(file[|file| - 8..]) == n
            && file[|d|..|file| - 8] == w + x && (w + x)[4..] == x && WordAt(w + x) == WordAt(w)
  {
    hide U64, ReadU64;
    var file := d + (w + x + U64(n));
    assert file[|file| - 8..] == U64(n) + [];
    U64RoundTrip(n, []);
    assert file[|d|..|file| - 8] == w + x;
    assert (w + x)[0] == w[0] && (w + x)[1] == w[1] && (w + x)[2] == w[2] && (w + x)[3] == w[3];
  }

  lemma Bounds(rows: seq<Row>)
    requires Finished(rows)
    ensures |rows| < WORD && (forall i | 0 <= i < |rows| :: |rows[i].key| < WORD)
    ensures |DataBytes(rows)| < WORD * WORD
  {
    hide DataBytes, IndexBytes, U32, U64;
    forall i | 0 <= i < |rows| ensures |rows[i].key| < WORD {
      assert Writable(rows[i]);
    }
  }

  lemma CountOf(n: nat)
    requires n < WORD
    ensures WordAt(U32(n)) == n
  {
    U32Small(n, []);
    assert U32(n) + [] == U32(n);
  }

  lemma Twelfth(n: nat, len: nat)
    requires 12 * n <= len
    ensures n <= len / 12
  {
  }

  /** Any finished file is accepted, and the index found in it is the one written. */
  lemma LoadAccepts(rows: seq<Row>)
    requires Finished(rows)
    ensures LoadIndex(FileBytes(rows)) == Some(Opened(rows))
  {
    hide Finished, DataBytes, IndexBytes, ScanIndex, Positions, U32, U64, ReadU64, WordAt, LoadIndex;
    Bounds(rows);
    var n := |DataBytes(rows)|;
    FooterOf(DataBytes(rows), U32(|rows|), IndexBytes(rows, 0), n);
    CountOf(|rows|);
    IndexLength(rows, 0);
    Twelfth(|rows|, |IndexBytes(rows, 0)|);
    ScanAccepts(rows, 0, n, n + 4);
    LoadSteps(FileBytes(rows), n, U32(|rows|) + IndexBytes(rows, 0), |rows|, Positions(rows, n + 4));
  }

  lemma LoadSteps(file: ByteString, n: nat, index: ByteString, count: nat, ps: seq<nat>)
    requires |file| >= 12 && ReadU64(file[|file| - 8..]) == n <= |file| - 12
    requires index == file[n..|file| - 8] && WordAt(index) == count && count <= (|index| - 4) / 12
    requires ScanIndex(index[4..], n, count, n + 4) == Some(ps)
    ensures LoadIndex(file) == Some(Table(file, n, ps))
  {
    hide ScanIndex, ReadU64, WordAt;
  }

  // ---- And its entries read back -------------------------------------------------------------------

  lemma FileSuffix(rows: seq<Row>, i: nat)
    requires i < |rows|
    ensures var t := Opened(rows);
            && t.offsets[i] <= |t.file|
            && t.file[t.offsets[i]..] == IndexBytes(rows[i..], |DataBytes(rows[..i])|) + U64(|DataBytes(rows)|)
  {
    hide DataBytes, IndexBytes, U64, U32, Positions;
    var d, x, u := DataBytes(rows), IndexBytes(rows, 0), U64(|DataBytes(rows)|);
    IndexSuffix(rows, 0, |d| + 4, i);
    var at := Positions(rows, |d| + 4)[i] - (|d| + 4);
    assert d + (U32(|rows|) + x + u) == (d + U32(|rows|)) + (x + u);
    SuffixOfTail(d + U32(|rows|), x + u, at);
    assert (x + u)[at..] == x[at..] + u;
  }

  lemma HeadEntry(rows: seq<Row>, offset: nat, u: ByteString)
    requires rows != [] && |rows[0].key| < WORD && offset < WORD * WORD
    ensures var d := IndexBytes(rows, offset) + u;
            ReadSized(d).Ok? && ReadSized(d).value == rows[0].key && |ReadSized(d).rest| >= 8
                && ReadU64(ReadSized(d).rest) == offset
  {
    hide RecordBytes, Sized, ReadSized, U64, ReadU64;
    var tail := IndexBytes(rows[1..], offset + |RecordBytes(rows[0])|) + u;
    assert IndexBytes(rows, offset) + u == Sized(rows[0].key) + (U64(offset) + tail);
    SizedRoundTrip(rows[0].key, U64(offset) + tail);
    U64RoundTrip(offset, tail);
  }

  /** index_entry gives the i-th key and the place of its record. */
  lemma IndexReads(rows: seq<Row>, i: nat)
    requires Finished(rows) && i < |rows|
    ensures IndexAt(Opened(rows), i) == Some((rows[i].key, |DataBytes(rows[..i])|))
  {
    hide Finished, DataBytes, IndexBytes, FileBytes, Positions, ReadSized, U64, ReadU64;
    Bounds(rows);
    FileSuffix(rows, i);
    DataSplits(rows, i);
    HeadEntry(rows[i..], |DataBytes(rows[..i])|, U64(|DataBytes(rows)|));
  }

  // ---- Records -------------------------------------------------------------------------------------

  ghost predicate AttrsFit(item: Item, names: seq<ByteString>, m: Item) {
    && (forall k | k in names :: k in item && |k| < WORD && |EncodeValue(item[k])| < WORD && k !in m)
    && (forall i, j | 0 <= i < j < |names| :: names[i] != names[j])
  }

  lemma {:induction false} AttrsRoundTrip(item: Item, names: seq<ByteString>, m: Item, x: ByteString)
    requires AttrsFit(item, names, m)
    ensures DecodeAttrs(|names|, EncodeAttrs(item, names) + x, m) == Some(m + Only(item, names))
    decreases |names|
  {
    hide Sized, ReadSized, EncodeValue, DecodeValue;
    if names == [] {
      assert EncodeAttrs(item, names) + x == x;
      assert m + Only(item, names) == m;
    } else {
      AttrStep(item, names, m, x);
      TailFits(item, names, m);
      hide DecodeAttrs, EncodeAttrs, Only, AttrsFit;
      AttrsRoundTrip(item, names[1..], m[names[0] := item[names[0]]], x);
      OneMoreAttr(item, names, m);
    }
  }

  lemma TailFits(item: Item, names: seq<ByteString>, m: Item)
    requires names != [] && AttrsFit(item, names, m)
    ensures names[0] in item && AttrsFit(item, names[1..], m[names[0] := item[names[0]]])
  {
    hide EncodeValue;
    assert forall i | 0 <= i < |names[1..]| :: names[1..][i] == names[i + 1];
  }

  lemma OneMoreAttr(item: Item, names: seq<ByteString>, m: Item)
    requires names != [] && names[0] in item
    ensures m[names[0] := item[names[0]]] + Only(item, names[1..]) == m + Only(item, names)
  {
    assert names == [names[0]] + names[1..];
  }

  lemma AttrStep(item: Item, names: seq<ByteString>, m: Item, x: ByteString)
    requires names != [] && AttrsFit(item, names, m)
    ensures DecodeAttrs(|names|, EncodeAttrs(item, names) + x, m)
         == DecodeAttrs(|names| - 1, EncodeAttrs(item, names[1..]) + x, m[names[0] := item[names[0]]])
  {
    hide Sized, ReadSized, EncodeValue, DecodeValue;
    var k := names[0];
    var e, tail := EncodeValue(item[k]), EncodeAttrs(item, names[1..]) + x;
    assert EncodeAttrs(item, names) + x == Sized(k) + (Sized(e) + tail);
    SizedRoundTrip(k, Sized(e) + tail);
    SizedRoundTrip(e, tail);
    ValueBack(item[k]);
  }

  lemma ValueBack(v: Value)
    requires |EncodeValue(v)| < WORD
    ensures DecodeValue(EncodeValue(v)) == Ok(v, [])
  {
    ShortIsSmall(v);
    ValueRoundTrip(v, []);
    assert EncodeValue(v) + [] == EncodeValue(v);
  }

  lemma SortedNames(item: Item)
    ensures forall k :: k in Sorted(item.Keys) <==> k in item
    ensures forall i, j | 0 <= i < j < |Sorted(item.Keys)| :: Sorted(item.Keys)[i] != Sorted(item.Keys)[j]
    ensures |Sorted(item.Keys)| == |item| && map[] + Only(item, Sorted(item.Keys)) == item
  {
    SortedEnumerates(item.Keys);
    SortedCount(item.Keys);
    OrderLaws();
  }

  /** A record parses back to its entry, tombstones included. */
  lemma RecordRoundTrip(row: Row, x: ByteString)
    requires Writable(row)
    ensures ParseRecord(RecordBytes(row) + x, row.key) == Some(row.entry)
  {
    hide Sized, ReadSized, U32, WordAt, EncodeAttrs, DecodeAttrs, EncodeValue, Sorted, Only, Writable, AttrsFit;
    var item := row.entry.item;
    var names := Sorted(item.Keys);
    WritableNames(row);
    var flag: ByteString := [if row.entry.deleted then 1 else 0];
    var attrs := EncodeAttrs(item, names) + x;
    RecordLayout(Sized(row.key), flag, U32(|item|), EncodeAttrs(item, names), x);
    SizedRoundTrip(row.key, flag + (U32(|item|) + attrs));
    CountThen(flag, |item|, attrs);
    AttrsRoundTrip(item, names, map[], x);
  }

  lemma WritableNames(row: Row)
    requires Writable(row)
    ensures |row.key| < WORD && |row.entry.item| < WORD
    ensures var item, names := row.entry.item, Sorted(row.entry.item.Keys);
            && AttrsFit(item, names, map[]) && (forall k | k in names :: k in item)
            && |names| == |item| && map[] + Only(item, names) == item
  {
    hide EncodeValue;
    SortedNames(row.entry.item);
  }

  lemma RecordLayout(a: ByteString, b: ByteString, c: ByteString, e: ByteString, x: ByteString)
    ensures (a + b + c + e) + x == a + (b + (c + (e + x)))
  {
  }

  lemma CountThen(flag: ByteString, n: nat, attrs: ByteString)
    requires |flag| == 1 && n < WORD
    ensures var rest := flag + (U32(n) + attrs);
            rest[0] == flag[0] && |rest[1..]| >= 4 && WordAt(rest[1..]) == n && rest[5..] == attrs
  {
    hide U32, ReadU32;
    var rest := flag + (U32(n) + attrs);
    assert rest[1..] == U32(n) + attrs;
    U32Small(n, attrs);
    assert rest[5..] == attrs;
  }

  /** read_entry gives the i-th entry. */
  lemma EntryReads(rows: seq<Row>, i: nat)
    requires Finished(rows) && i < |rows|
    ensures ReadEntry(Opened(rows), i) == Some(rows[i].entry)
  {
    IndexReads(rows, i);
    DataSplits(rows, i);
    assert Writable(rows[i]);
    RecordRoundTrip(rows[i], DataBytes(rows[i..][1..]));
    hide IndexAt, Finished, Writable, IndexBytes, ParseRecord, Positions, U32, U64;
    var d, off := DataBytes(rows), |DataBytes(rows[..i])|;
    assert FileBytes(rows)[off..|d|] == d[off..];
    assert d[off..] == DataBytes(rows[i..]);
    assert rows[i..][0] == rows[i];
  }

  // ---- Searching an opened table -------------------------------------------------------------------

  /** The opened table answers as these rows. */
  ghost predicate Holds(t: Table, rows: seq<Row>) {
    && |t.offsets| == |rows| && Ordered(rows, true)
    && forall i | 0 <= i < |rows| ::
         && IndexAt(t, i).Some? && IndexAt(t, i).value.0 == rows[i].key
         && ReadEntry(t, i) == Some(rows[i].entry)
  }

  /** Writing rows and opening the bytes gives a table that answers as those rows. */
  lemma FileRoundTrip(rows: seq<Row>)
    requires Finished(rows)
    ensures LoadIndex(FileBytes(rows)) == Some(Opened(rows)) && Holds(Opened(rows), rows)
  {
    hide FileBytes, LoadIndex, IndexAt, ReadEntry, Positions, DataBytes;
    LoadAccepts(rows);
    forall i | 0 <= i < |rows|
      ensures IndexAt(Opened(rows), i).Some? && IndexAt(Opened(rows), i).value.0 == rows[i].key
           && ReadEntry(Opened(rows), i) == Some(rows[i].entry)
    {
      IndexReads(rows, i);
      EntryReads(rows, i);
    }
  }

  method LowerBoundIndex(t: Table, key: ByteString, ghost rows: seq<Row>) returns (first: nat)
    requires Holds(t, rows)
    ensures first == LowerBound(rows, key)
  {
    hide IndexAt, ReadEntry;
    first := 0;
    var count := |t.offsets|;
    while count > 0
      invariant first <= LowerBound(rows, key) <= first + count <= |rows|
      decreases count
    {
      var step := count / 2;
      var middle := first + step;
      LowerBoundSplits(rows, key, middle);
      if Less(IndexAt(t, middle).value.0, key) {
        first := middle + 1;
        count := count - (step + 1);
      } else {
        count := step;
      }
    }
  }

  method UpperBoundIndex(t: Table, key: ByteString, ghost rows: seq<Row>) returns (first: nat)
    requires Holds(t, rows)
    ensures first == UpperBound(rows, key)
  {
    hide IndexAt, ReadEntry;
    first := 0;
    var count := |t.offsets|;
    while count > 0
      invariant first <= UpperBound(rows, key) <= first + count <= |rows|
      decreases count
    {
      var step := count / 2;
      var middle := first + step;
      UpperBoundSplits(rows, key, middle);
      if !Less(key, IndexAt(t, middle).value.0) {
        first := middle + 1;
        count := count - (step + 1);
      } else {
        count := step;
      }
    }
  }

  /** The lower bound lands on the key exactly when the rows have it. */
  lemma BoundFinds(rows: seq<Row>, key: ByteString)
    requires Ordered(rows, true)
    ensures var i := LowerBound(rows, key);
            && (key in RowsLayer(rows) <==> i < |rows| && rows[i].key == key)
            && (key in RowsLayer(rows) ==> RowsLayer(rows)[key] == rows[i].entry)
  {
    var i := LowerBound(rows, key);
    RowsLayerKeys(rows);
    OrderLaws();
    if i < |rows| {
      LowerBoundSplits(rows, key, i);
      RowsLayerAt(rows, true, i);
      assert forall j | i < j < |rows| :: Ahead(rows[i].key, rows[j].key, true);
    }
    if key in RowsLayer(rows) {
      var j :| 0 <= j < |rows| && rows[j].key == key;
      LowerBoundSplits(rows, key, j);
    }
  }

  method Contains(t: Table, key: ByteString, ghost rows: seq<Row>) returns (r: bool)
    requires Holds(t, rows)
    ensures r <==> key in RowsLayer(rows)
  {
    hide IndexAt, ReadEntry, LowerBound, RowsLayer;
    BoundFinds(rows, key);
    var i := LowerBoundIndex(t, key, rows);
    r := i < |t.offsets| && IndexAt(t, i).value.0 == key;
  }

  method Get(t: Table, key: ByteString, ghost rows: seq<Row>) returns (r: Option<Item>)
    requires Holds(t, rows)
    ensures r == if key in RowsLayer(rows) && !RowsLayer(rows)[key].deleted then Some(RowsLayer(rows)[key].item)
            else None
  {
    hide IndexAt, ReadEntry, LowerBound, RowsLayer;
    BoundFinds(rows, key);
    var i := LowerBoundIndex(t, key, rows);
    if i >= |t.offsets| || IndexAt(t, i).value.0 != key {
      return None;
    }
    var e := ReadEntry(t, i);
    if e.None? || e.value.deleted {
      return None;
    }
    return Some(e.value.item);
  }

  // ---- The loading loop ----------------------------------------------------------------------------

  function Joined(a: seq<nat>, r: Option<seq<nat>>): (s: Option<seq<nat>>) {
    match r case None => None case Some(b) => Some(a + b)
  }

  method Load(file: ByteString) returns (r: Option<Table>)
    ensures r == LoadIndex(file)
  {
    hide ReadSized, ReadU64, WordAt;
    if |file| < 12 {
      return None;
    }
    var dataEnd := ReadU64(file[|file| - 8..]);
    if dataEnd > |file| - 12 {
      return None;
    }
    var index := file[dataEnd..|file| - 8];
    var count := WordAt(index);
    if count > (|index| - 4) / 12 {
      return None;
    }
    var offsets := ScanAll(index[4..], dataEnd, count, dataEnd + 4);
    return if offsets.None? then None else Some(Table(file, dataEnd, offsets.value));
  }

  method ScanAll(d: ByteString, dataEnd: nat, count: nat, start: nat) returns (r: Option<seq<nat>>)
    ensures r == ScanIndex(d, dataEnd, count, start)
  {
    hide ReadSized, ReadU64;
    var left: ByteString, pos: nat, i: nat := d, start, 0;
    var offsets: seq<nat> := [];
    JoinNothing(ScanIndex(d, dataEnd, count, start));
    while i < count
      invariant 0 <= i <= count
      invariant ScanIndex(d, dataEnd, count, start) == Joined(offsets, ScanIndex(left, dataEnd, count - i, pos))
    {
      var key := ReadSized(left);
      if key.Fail? || |key.rest| < 8 || ReadU64(key.rest) >= dataEnd {
        return None;
      }
      JoinOne(offsets, pos, ScanIndex(key.rest[8..], dataEnd, count - i - 1, pos + |key.value| + 12));
      offsets := offsets + [pos];
      pos := pos + |key.value| + 12;
      left := key.rest[8..];
      i := i + 1;
    }
    assert offsets + [] == offsets;
    return if left == [] then Some(offsets) else None;
  }

  lemma JoinNothing(r: Option<seq<nat>>)
    ensures Joined([], r) == r
  {
    if r.Some? {
      assert [] + r.value == r.value;
    }
  }

  lemma JoinOne(a: seq<nat>, x: nat, r: Option<seq<nat>>)
    ensures r.Some? ==> Joined(a + [x], r) == Some(a + ([x] + r.value))
  {
    if r.Some? {
      assert (a + [x]) + r.value == a + ([x] + r.value);
    }
  }

  // ---- The writer ----------------------------------------------------------------------------------

  lemma {:induction false} DataAppend(rows: seq<Row>, row: Row)
    ensures DataBytes(rows + [row]) == DataBytes(rows) + RecordBytes(row)
  {
    DataSplits(rows + [row], |rows|);
    assert (rows + [row])[..|rows|] == rows && (rows + [row])[|rows|..] == [row];
    hide RecordBytes;
    assert DataBytes([row]) == RecordBytes(row) + DataBytes([]);
  }

  lemma {:induction false} IndexAppend(rows: seq<Row>, row: Row, offset: nat)
    ensures IndexBytes(rows + [row], offset)
            == IndexBytes(rows, offset) + (Sized(row.key) + U64(offset + |DataBytes(rows)|))
    decreases |rows|
  {
    hide RecordBytes, Sized, U64;
    if rows == [] {
      assert IndexBytes([row], offset) == Sized(row.key) + U64(offset) + IndexBytes([], offset + |RecordBytes(row)|);
    } else {
      assert (rows + [row])[1..] == rows[1..] + [row] && (rows + [row])[0] == rows[0];
      IndexAppend(rows[1..], row, offset + |RecordBytes(rows[0])|);
    }
  }

  class SSTableWriter {
    var data: ByteString
    var index: ByteString
    var previousKey: ByteString
    var entryCount: nat
    ghost var rows: seq<Row>

    ghost predicate Valid()
      reads this
    {
      && data == DataBytes(rows) && index == IndexBytes(rows, 0) && entryCount == |rows| < WORD
      && Ordered(rows, true) && (forall i | 0 <= i < |rows| :: Writable(rows[i]))
      && previousKey == if rows == [] then [] else rows[|rows| - 1].key
    }

    constructor ()
      ensures Valid() && rows == []
    {
      data, index, previousKey, entryCount, rows := [], [], [], 0, [];
    }

    /** What append tests before it writes. */
    method Accepts(row: Row) returns (ok: bool)
      requires Valid()
      ensures ok <==> Writable(row) && |rows| < WORD - 1 && (rows == [] || Less(rows[|rows| - 1].key, row.key))
    {
      if row.key == [] || |row.key| >= WORD || |row.entry.item| >= WORD || entryCount >= WORD - 1 {
        return false;
      }
      assert rows != [] ==> Writable(rows[|rows| - 1]);
      hide DataBytes, IndexBytes, Ordered, Less, EncodeValue;
      if previousKey != [] && !Less(previousKey, row.key) {
        return false;
      }
      ok := AttrsWritable(row.entry.item);
    }

    /** Accepts a writable entry whose key is above the last one; a refused entry ends the file. */
    method Append(row: Row) returns (ok: bool)
      requires Valid()
      modifies this
      ensures ok <==> (&& Writable(row) && |old(rows)| < WORD - 1
                       && (old(rows) == [] || Less(old(rows)[|old(rows)| - 1].key, row.key)))
      ensures ok ==> Valid() && rows == old(rows) + [row]
    {
      hide DataBytes, IndexBytes, Sized, U64, RecordBytes, Ordered, Writable, Less;
      ok := Accepts(row);
      if !ok {
        return;
      }
      DataAppend(rows, row);
      IndexAppend(rows, row, 0);
      OrderedAppend(rows, row);
      var offset := |data|;
      data := data + RecordBytes(row);
      index := index + (Sized(row.key) + U64(offset));
      previousKey := row.key;
      entryCount := entryCount + 1;
      rows := rows + [row];
    }

    /** The finished file. */
    method Finish() returns (file: ByteString)
      requires Valid()
      ensures file == FileBytes(rows)
    {
      hide DataBytes, IndexBytes;
      file := data + (U32(entryCount) + index + U64(|data|));
    }
  }

  lemma OrderedAppend(rows: seq<Row>, row: Row)
    requires Ordered(rows, true) && (rows != [] ==> Less(rows[|rows| - 1].key, row.key))
    ensures Ordered(rows + [row], true)
  {
    OrderLaws();
    forall i | 0 <= i < |rows| ensures Ahead(rows[i].key, row.key, true) {
      assert i < |rows| - 1 ==> Ahead(rows[i].key, rows[|rows| - 1].key, true);
    }
  }

  /** The size checks of append's attribute loop. */
  method AttrsWritable(item: Item) returns (ok: bool)
    ensures ok <==> forall k | k in item :: AttrWritable(item, k)
  {
    hide EncodeValue, Sorted, Ascending, AttrWritable;
    SortedEnumerates(item.Keys);
    var names := Sorted(item.Keys);
    for i := 0 to |names|
      invariant forall j | 0 <= j < i :: AttrWritable(item, names[j])
    {
      assert names[i] in names;
      if !AttrWritable(item, names[i]) {
        return false;
      }
    }
    forall k | k in item ensures AttrWritable(item, k) {
      assert k in names;
    }
    return true;
  }

  predicate AttrWritable(item: Item, k: ByteString) {
    k in item && |k| < WORD && |EncodeValue(item[k])| < WORD
  }
}
