/**
 The bytes of a log segment (src/engine/lsm/wal.cpp): what replay makes of a file that a crash cut anywhere.
 The checksum is a function of the bytes it covers; the four padding bytes of a record header are whatever
 they were.
 */
module WalBytes {
  import opened Bytes
  import opened Values
  import opened Layers
  import opened RecordCodec

  type Word32 = n: nat | n < WORD

  datatype Rec = Rec(seqno: nat, key: ByteString, value: ByteString)

  /** sizeof(WALHeader) and sizeof(WALRecord). */
  const FILE_HEADER: nat := 8
  const HEADER: nat := 24

  // ---- Records -------------------------------------------------------------------------------------

  /** The sixteen header bytes the checksum covers. */
  function Covered(r: Rec): (h: ByteString)
    ensures |h| == 16
  {
    U64(r.seqno) + U32(|r.key|) + U32(|r.value|)
  }

  /** write_record. */
  function EncodeRec(r: Rec, pad: ByteString, crc: ByteString -> Word32): (e: ByteString)
    requires |pad| == 4
    ensures |e| == HEADER + |r.key| + |r.value|
  {
    Covered(r) + U32(crc(Covered(r) + r.key + r.value)) + pad + r.key + r.value
  }

  predicate Fits(r: Rec) {
    r.seqno < WORD * WORD && |r.key| < WORD && |r.value| < WORD
  }

  /** The records of a segment after its file header, one after another. */
  function EncodeLog(rs: seq<Rec>, pads: seq<ByteString>, crc: ByteString -> Word32): (e: ByteString)
    requires |pads| == |rs| && forall i | 0 <= i < |pads| :: |pads[i]| == 4
  {
    if rs == [] then [] else EncodeRec(rs[0], pads[0], crc) + EncodeLog(rs[1..], pads[1..], crc)
  }

  /** One record off the front, if it is all there and its checksum agrees. */
  function ReadRec(d: ByteString, crc: ByteString -> Word32): (r: Result<Rec>)
    ensures r.Ok? ==> |r.rest| < |d|
  {
    if |d| < HEADER then Fail
    else
      var keySize, valSize := WordAt(d[8..]), WordAt(d[12..]);
      var body := d[HEADER..];
      if |body| < keySize + valSize then Fail
      else
        var key, value := body[..keySize], body[keySize..keySize + valSize];
        if crc(d[..16] + key + value) != WordAt(d[16..]) then Fail
        else Ok(Rec(ReadU64(d), key, value), body[keySize + valSize..])
  }

  /** replay's loop: stop at the first record that is short or damaged. */
  function Replay(d: ByteString, crc: ByteString -> Word32): (rs: seq<Rec>)
    decreases |d|
  {
    match ReadRec(d, crc)
    case Fail => []
    case Ok(r, rest) => [r] + Replay(rest, crc)
  }

  lemma Layout(a: ByteString, b: ByteString, c: ByteString, s: ByteString, pad: ByteString, body: ByteString)
    requires |a| == 8 && |b| == 4 && |c| == 4 && |s| == 4 && |pad| == 4
    ensures var d := a + b + c + s + pad + body;
            && d[..16] == a + b + c && d == a + (b + (c + (s + (pad + body)))) && d[8..] == b + (c + (s + (pad + body)))
            && d[12..] == c + (s + (pad + body)) && d[16..] == s + (pad + body) && d[20..] == pad + body
                && d[24..] == body
  {
  }

  lemma RecLayout(r: Rec, pad: ByteString, sum: ByteString, x: ByteString)
    requires |pad| == 4 && |sum| == 4
    ensures (Covered(r) + sum + pad + r.key + r.value) + x
         == U64(r.seqno) + U32(|r.key|) + U32(|r.value|) + sum + pad + (r.key + r.value + x)
  {
    hide U64, U32;
  }

  lemma HeaderFields(r: Rec, pad: ByteString, crc: ByteString -> Word32, x: ByteString)
    requires |pad| == 4 && Fits(r)
    ensures var d := EncodeRec(r, pad, crc) + x;
            && |d| >= HEADER && d[..16] == Covered(r) && ReadU64(d) == r.seqno
            && ReadU32(d[8..]) == Ok(|r.key|, d[12..]) && ReadU32(d[12..]) == Ok(|r.value|, d[16..])
            && ReadU32(d[16..]) == Ok(crc(Covered(r) + r.key + r.value), d[20..])
            && d[HEADER..] == r.key + r.value + x
  {
    var d := EncodeRec(r, pad, crc) + x;
    var sum := crc(Covered(r) + r.key + r.value);
    hide U32, ReadU32, U64, ReadU64;
    var body := r.key + r.value + x;
    RecLayout(r, pad, U32(sum), x);
    Layout(U64(r.seqno), U32(|r.key|), U32(|r.value|), U32(sum), pad, body);
    U64RoundTrip(r.seqno, d[8..]);
    U32Small(|r.key|, d[12..]);
    U32Small(|r.value|, d[16..]);
    U32Small(sum, d[20..]);
  }

  lemma RecRoundTrip(r: Rec, pad: ByteString, crc: ByteString -> Word32, x: ByteString)
    requires |pad| == 4 && Fits(r)
    ensures ReadRec(EncodeRec(r, pad, crc) + x, crc) == Ok(r, x)
  {
    HeaderFields(r, pad, crc, x);
    hide U32, ReadU32, EncodeRec, Covered, ReadU64;
    var body := r.key + r.value + x;
    assert body[..|r.key|] == r.key && body[|r.key|..|r.key| + |r.value|] == r.value
        && body[|r.key| + |r.value|..] == x;
  }

  /** A record cut short is never returned. */
  lemma CutRecFails(r: Rec, pad: ByteString, crc: ByteString -> Word32, k: nat)
    requires |pad| == 4 && Fits(r) && k < HEADER + |r.key| + |r.value|
    ensures ReadRec(EncodeRec(r, pad, crc)[..k], crc).Fail?
  {
    var e := EncodeRec(r, pad, crc);
    if k >= HEADER {
      HeaderFields(r, pad, crc, []);
      assert e + [] == e;
      assert e[..k][8..] == e[8..k] && e[..k][12..] == e[12..k];
      SameWord(e[8..], e[8..k]);
      SameWord(e[12..], e[12..k]);
    }
  }

  lemma SameWord(d: ByteString, d': ByteString)
    requires |d'| >= 4 && |d'| <= |d| && d[..|d'|] == d'
    ensures ReadU32(d').Ok? && ReadU32(d).Ok? && ReadU32(d').value == ReadU32(d).value
  {
    assert d'[0] == d[..|d'|][0] && d'[1] == d[..|d'|][1] && d'[2] == d[..|d'|][2] && d'[3] == d[..|d'|][3];
  }

  // ---- A log cut anywhere --------------------------------------------------------------------------

  /** How many records lie wholly within the first k bytes. */
  function Whole(rs: seq<Rec>, k: nat): (n: nat)
    ensures n <= |rs|
  {
    if rs == [] || k < HEADER + |rs[0].key| + |rs[0].value| then 0
    else 1 + Whole(rs[1..], k - (HEADER + |rs[0].key| + |rs[0].value|))
  }

  /** Replay of a log cut after any byte returns exactly the records that are wholly there. */
  lemma {:induction false} CutReplay(rs: seq<Rec>, pads: seq<ByteString>, crc: ByteString -> Word32, k: nat)
    requires |pads| == |rs| && (forall i | 0 <= i < |pads| :: |pads[i]| == 4)
             && (forall i | 0 <= i < |rs| :: Fits(rs[i]))
    requires k <= |EncodeLog(rs, pads, crc)|
    ensures Replay(EncodeLog(rs, pads, crc)[..k], crc) == rs[..Whole(rs, k)]
    decreases |rs|
  {
    hide EncodeRec, ReadRec, Fits;
    if rs != [] {
      var e, rest := EncodeRec(rs[0], pads[0], crc), EncodeLog(rs[1..], pads[1..], crc);
      if k < |e| {
        assert (e + rest)[..k] == e[..k];
        CutRecFails(rs[0], pads[0], crc, k);
      } else {
        assert (e + rest)[..k] == e + rest[..k - |e|];
        RecRoundTrip(rs[0], pads[0], crc, rest[..k - |e|]);
        CutReplay(rs[1..], pads[1..], crc, k - |e|);
        assert rs[..Whole(rs, k)] == [rs[0]] + rs[1..][..Whole(rs[1..], k - |e|)];
      }
    }
  }

  // ---- Writes as records ---------------------------------------------------------------------------

  /** append_to_wal: 'P' and the item, or 'D'. */
  function ValueOf(w: Write): (v: ByteString) {
    match w
    case Put(_, item) => [80] + EncodeItem(item)
    case Del(_) => [68]
  }

  function RecOf(seqno: nat, w: Write): (r: Rec) {
    Rec(seqno, w.key, ValueOf(w))
  }

  /** recover_from_wal's reading of a record: unknown or undecodable ones are skipped. */
  function WriteOf(r: Rec): (w: Option<Write>) {
    if r.value == [] then None
    else if r.value[0] == 68 then Some(Del(r.key))
    else if r.value[0] == 80 then
      (match DecodeItem(r.value[1..]) case None => None case Some(item) => Some(Put(r.key, item)))
    else None
  }

  function WritesOf(rs: seq<Rec>): (ws: seq<Write>) {
    if rs == [] then []
    else (match WriteOf(rs[0]) case None => [] case Some(w) => [w]) + WritesOf(rs[1..])
  }

  lemma WriteRoundTrip(seqno: nat, w: Write)
    requires w.Put? ==> Small(M(w.item))
    ensures WriteOf(RecOf(seqno, w)) == Some(w)
  {
    match w
    case Put(k, item) =>
      hide EncodeItem, DecodeRecord, Small;
      ItemRoundTrip(item, []);
      assert ([80] + EncodeItem(item))[1..] == EncodeItem(item) && EncodeItem(item) + [] == EncodeItem(item);
    case Del(k) =>
  }

  function RecsOf(first: nat, ws: seq<Write>): (rs: seq<Rec>)
    ensures |rs| == |ws| && forall i | 0 <= i < |rs| :: rs[i] == RecOf(first + i, ws[i])
  {
    seq(|ws|, i requires 0 <= i < |ws| => RecOf(first + i, ws[i]))
  }

  lemma {:induction false} WritesRoundTrip(first: nat, ws: seq<Write>, n: nat)
    requires n <= |ws| && forall i | 0 <= i < |ws| :: ws[i].Put? ==> Small(M(ws[i].item))
    ensures WritesOf(RecsOf(first, ws)[..n]) == ws[..n]
    decreases n
  {
    hide Small, WriteOf, RecOf;
    if n > 0 {
      var rs := RecsOf(first, ws);
      WriteRoundTrip(first, ws[0]);
      WritesRoundTrip(first + 1, ws[1..], n - 1);
      assert rs[1..] == RecsOf(first + 1, ws[1..]);
      assert rs[..n][0] == rs[0] && rs[..n][1..] == rs[1..][..n - 1];
      assert ws[..n] == [ws[0]] + ws[1..][..n - 1];
    }
  }

  /** A segment cut anywhere replays a prefix of the writes appended to it, at a record boundary. */
  lemma LogSurvivesCut(first: nat, ws: seq<Write>, pads: seq<ByteString>, crc: ByteString -> Word32, k: nat)
    requires |pads| == |ws| && (forall i | 0 <= i < |pads| :: |pads[i]| == 4)
    requires forall i | 0 <= i < |ws| :: ws[i].Put? ==> Small(M(ws[i].item))
    requires forall i | 0 <= i < |ws| :: Fits(RecOf(first + i, ws[i]))
    requires k <= |EncodeLog(RecsOf(first, ws), pads, crc)|
    ensures WritesOf(Replay(EncodeLog(RecsOf(first, ws), pads, crc)[..k], crc)) == ws[..Whole(RecsOf(first, ws), k)]
  {
    CutReplay(RecsOf(first, ws), pads, crc, k);
    WritesRoundTrip(first, ws, Whole(RecsOf(first, ws), k));
  }

  // ---- The file ------------------------------------------------------------------------------------

  lemma {:induction false} EncodeLogAppend(rs: seq<Rec>, pads: seq<ByteString>, r: Rec, pad: ByteString,
      crc: ByteString -> Word32)
    requires |pads| == |rs| && (forall i | 0 <= i < |pads| :: |pads[i]| == 4) && |pad| == 4
    ensures EncodeLog(rs + [r], pads + [pad], crc) == EncodeLog(rs, pads, crc) + EncodeRec(r, pad, crc)
  {
    hide EncodeRec;
    if rs == [] {
      assert EncodeLog(rs + [r], pads + [pad], crc) == EncodeRec(r, pad, crc) + EncodeLog([], [], crc);
    } else {
      assert (rs + [r])[1..] == rs[1..] + [r] && (pads + [pad])[1..] == pads[1..] + [pad];
      EncodeLogAppend(rs[1..], pads[1..], r, pad, crc);
    }
  }

  class WriteAheadLog {
    const crc: ByteString -> Word32
    const header: ByteString
    var file: ByteString
    var appended: nat
    ghost var records: seq<Rec>
    ghost var pads: seq<ByteString>

    ghost predicate Valid()
      reads this
    {
      && |header| == FILE_HEADER && appended == |records| == |pads|
      && (forall i | 0 <= i < |pads| :: |pads[i]| == 4)
      && file == header + EncodeLog(records, pads, crc)
    }

    constructor (header: ByteString, crc: ByteString -> Word32)
      requires |header| == FILE_HEADER
      ensures Valid() && records == [] && this.crc == crc
    {
      this.crc, this.header, file := crc, header, header;
      appended, records, pads := 0, [], [];
    }

    /** append_only; the padding is whatever the stack held. */
    method AppendOnly(r: Rec, pad: ByteString)
      requires Valid() && |pad| == 4
      modifies this
      ensures Valid() && records == old(records) + [r] && appended == old(appended) + 1
    {
      hide EncodeLog, EncodeRec;
      EncodeLogAppend(records, pads, r, pad, crc);
      Regroup(header, EncodeLog(records, pads, crc), EncodeRec(r, pad, crc));
      file := file + EncodeRec(r, pad, crc);
      records, pads := records + [r], pads + [pad];
      appended := appended + 1;
    }
  }

  lemma Slices(file: ByteString, pos: nat, n: nat)
    requires pos <= |file| && n <= |file| - pos
    ensures file[pos..][n..] == file[pos + n..] && file[pos..][..n] == file[pos..pos + n]
  {
  }

  /** One turn of replay's loop at a position of the file. */
  method ReadAt(file: ByteString, pos: nat, crc: ByteString -> Word32) returns (r: Option<Rec>, next: nat)
    requires pos <= |file|
    ensures next <= |file| && Agrees(r, ReadRec(file[pos..], crc), file[next..]) && (r.Some? ==> next > pos)
  {
    hide WordAt, ReadU64;
    r, next := None, pos;
    if pos + HEADER > |file| {
      return;
    }
    var d := file[pos..];
    var seqno := ReadU64(d);
    var keySize, valSize, sum := WordAt(d[8..]), WordAt(d[12..]), WordAt(d[16..]);
    var k := pos + HEADER;
    Slices(file, pos, HEADER);
    if k + keySize + valSize > |file| {
      return;
    }
    Slices(file, k, keySize);
    Slices(file, k, keySize + valSize);
    var key, value := file[k..k + keySize], file[k + keySize..k + keySize + valSize];
    assert d[HEADER..][keySize..keySize + valSize] == value;
    if crc(d[..16] + key + value) != sum {
      return;
    }
    r, next := Some(Rec(seqno, key, value)), k + keySize + valSize;
  }

  /** replay over the bytes of a file, from after its header. */
  method ReplayFile(file: ByteString, crc: ByteString -> Word32) returns (rs: seq<Rec>)
    requires |file| >= FILE_HEADER
    ensures rs == Replay(file[FILE_HEADER..], crc)
  {
    hide ReadRec;
    rs := [];
    var pos := FILE_HEADER;
    while true
      invariant FILE_HEADER <= pos <= |file|
      invariant rs + Replay(file[pos..], crc) == Replay(file[FILE_HEADER..], crc)
      decreases |file| - pos
    {
      var r, next := ReadAt(file, pos, crc);
      if r.None? {
        return;
      }
      assert (rs + [r.value]) + Replay(file[next..], crc) == rs + ([r.value] + Replay(file[next..], crc));
      rs := rs + [r.value];
      pos := next;
    }
  }
}
