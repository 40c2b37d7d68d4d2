/** The MANIFEST file: Manifest::save and Manifest::load (src/engine/lsm/manifest.cpp). */
module ManifestFiles {
  import opened Bytes
  import opened Decimals
  import opened RecordCodec
  import Manifests

  const MAX_FILE: nat := 0x1000_0000
  const MAX_LEVELS: nat := 64
  const MAX_TEXT: nat := 0x10_0000
  const LEAST_ENTRY: nat := 20

  type Word64 = n: nat | n < WORD * WORD

  datatype FileMeta = FileMeta(level: nat, path: ByteString, seqno: Word64, minKey: ByteString, maxKey: ByteString)

  type Levels = map<nat, seq<FileMeta>>

  datatype Catalogue = Catalogue(next: Word64, levels: Levels)

  // ---- What save writes ----------------------------------------------------------------------------

  predicate GoodMeta(x: FileMeta) {
    x.path != [] && |x.path| <= MAX_TEXT && |x.minKey| <= MAX_TEXT && |x.maxKey| <= MAX_TEXT
  }

  predicate GoodFiles(files: seq<FileMeta>) {
    forall i | 0 <= i < |files| :: GoodMeta(files[i])
  }

  /** What save checks before it writes anything. */
  predicate Savable(levels: Levels) {
    |levels| <= MAX_LEVELS && forall level | level in levels ::
        level < MAX_LEVELS && |levels[level]| < WORD && GoodFiles(levels[level])
  }

  function EntryBytes(x: FileMeta): (r: ByteString)
    ensures |r| >= LEAST_ENTRY
  {
    Sized(x.path) + (U64(x.seqno) + (Sized(x.minKey) + Sized(x.maxKey)))
  }

  function FilesBytes(files: seq<FileMeta>): (r: ByteString) {
    if files == [] then [] else EntryBytes(files[0]) + FilesBytes(files[1..])
  }

  function LevelBytes(level: nat, files: seq<FileMeta>): (r: ByteString) {
    U32(level) + (U32(|files|) + FilesBytes(files))
  }

  /** The levels from `from` on, in the ascending order a std::map lists them. */
  function LevelsBytes(levels: Levels, from: nat): (r: ByteString)
    decreases MAX_LEVELS - from
  {
    if from >= MAX_LEVELS then []
    else (if from in levels then LevelBytes(from, levels[from]) else []) + LevelsBytes(levels, from + 1)
  }

  function ManifestBytes(c: Catalogue): (r: ByteString) {
    U64(c.next) + (U32(|c.levels|) + LevelsBytes(c.levels, 0))
  }

  // ---- What load accepts ---------------------------------------------------------------------------

  function ReadLong(d: ByteString): (r: Result<Word64>)
    ensures r.Ok? ==> |r.rest| == |d| - 8
  {
    if |d| < 8 then Fail else Ok(LongIsBounded(d); ReadU64(d), d[8..])
  }

  lemma LongIsBounded(d: ByteString)
    requires |d| >= 8
    ensures ReadU64(d) < WORD * WORD
  {
    var a, b := ReadU32(d).value, ReadU32(d[4..]).value;
    assert a + WORD * b <= WORD - 1 + WORD * (WORD - 1);
  }

  /** read_bounded_string. */
  function ReadText(d: ByteString): (r: Result<ByteString>)
    ensures r.Ok? ==> |r.value| <= MAX_TEXT && |r.rest| == |d| - 4 - |r.value|
  {
    match ReadU32(d)
    case Fail => Fail
    case Ok(n, rest) => if n > MAX_TEXT then Fail else ReadBytes(n, rest)
  }

  function LoadMeta(d: ByteString, level: nat): (r: Result<FileMeta>)
    ensures r.Ok? ==> |r.rest| <= |d| - LEAST_ENTRY
  {
    match ReadText(d)
    case Fail => Fail
    case Ok(path, d1) =>
      if path == [] then Fail
      else match ReadLong(d1)
        case Fail => Fail
        case Ok(seqno, d2) =>
          match ReadText(d2)
          case Fail => Fail
          case Ok(minKey, d3) =>
            match ReadText(d3)
            case Fail => Fail
            case Ok(maxKey, d4) => Ok(FileMeta(level, path, seqno, minKey, maxKey), d4)
  }

  function LoadFiles(count: nat, d: ByteString, level: nat): (r: Result<seq<FileMeta>>)
    decreases count
  {
    if count == 0 then Ok([], d)
    else match LoadMeta(d, level)
      case Fail => Fail
      case Ok(x, rest) =>
        match LoadFiles(count - 1, rest, level)
        case Fail => Fail
        case Ok(xs, rest') => Ok([x] + xs, rest')
  }

  function FilesAt(levels: Levels, level: nat): (r: seq<FileMeta>) {
    if level in levels then levels[level] else []
  }

  /** One level header and its entries; a count that the bytes left cannot hold is refused at once. */
  function LoadLevel(d: ByteString): (r: Result<(nat, seq<FileMeta>)>) {
    match ReadU32(d)
    case Fail => Fail
    case Ok(level, d1) =>
      if level >= MAX_LEVELS then Fail
      else match ReadU32(d1)
        case Fail => Fail
        case Ok(count, d2) =>
          if count > |d2| / LEAST_ENTRY then Fail
          else match LoadFiles(count, d2, level)
            case Fail => Fail
            case Ok(files, rest) => Ok((level, files), rest)
  }

  function LoadLevels(count: nat, d: ByteString, levels: Levels): (r: Result<Levels>)
    decreases count
  {
    if count == 0 then Ok(levels, d)
    else match LoadLevel(d)
      case Fail => Fail
      case Ok((level, files), rest) => LoadLevels(count - 1, rest, levels[level := FilesAt(levels, level) + files])
  }

  function LoadBytes(d: ByteString): (r: Option<Catalogue>) {
    if |d| > MAX_FILE || |d| < 12 then None
    else
      var next, d1 := ReadLong(d).value, ReadLong(d).rest;
      var count, d2 := ReadU32(d1).value, ReadU32(d1).rest;
      if count > MAX_LEVELS then None
      else match LoadLevels(count, d2, map[])
        case Fail => None
        case Ok(levels, rest) => if rest == [] then Some(Catalogue(next, levels)) else None
  }

  // ---- Reading back one entry ----------------------------------------------------------------------

  lemma LongRoundTrip(n: Word64, x: ByteString)
    ensures ReadLong(U64(n) + x) == Ok(n, x)
  {
    hide U64, ReadU64;
    U64RoundTrip(n, x);
    assert (U64(n) + x)[8..] == x;
  }

  lemma TextRoundTrip(s: ByteString, x: ByteString)
    requires |s| <= MAX_TEXT
    ensures ReadText(Sized(s) + x) == Ok(s, x)
  {
    hide U32, ReadU32;
    assert Sized(s) + x == U32(|s|) + (s + x);
    U32Small(|s|, s + x);
    assert (s + x)[..|s|] == s && (s + x)[|s|..] == x;
  }

  lemma EntryRoundTrip(x: FileMeta, level: nat, tail: ByteString)
    requires GoodMeta(x)
    ensures LoadMeta(EntryBytes(x) + tail, level) == Ok(x.(level := level), tail)
  {
    hide U64, Sized, ReadText, ReadLong;
    var d4 := tail;
    var d3 := Sized(x.maxKey) + d4;
    var d2 := Sized(x.minKey) + d3;
    var d1 := U64(x.seqno) + d2;
    assert EntryBytes(x) + tail == Sized(x.path) + d1;
    TextRoundTrip(x.path, d1);
    LongRoundTrip(x.seqno, d2);
    TextRoundTrip(x.minKey, d3);
    TextRoundTrip(x.maxKey, d4);
  }

  /** The entries as load rebuilds them: each takes the level it was listed under. */
  function Tagged(files: seq<FileMeta>, level: nat): (r: seq<FileMeta>)
    ensures |r| == |files| && forall i | 0 <= i < |r| :: r[i] == files[i].(level := level)
  {
    seq(|files|, i requires 0 <= i < |files| => files[i].(level := level))
  }

  lemma TaggedFirst(files: seq<FileMeta>, level: nat)
    requires files != []
    ensures Tagged(files, level) == [files[0].(level := level)] + Tagged(files[1..], level)
  {
  }

  lemma {:induction false} FilesRoundTrip(files: seq<FileMeta>, level: nat, tail: ByteString)
    requires GoodFiles(files)
    ensures LoadFiles(|files|, FilesBytes(files) + tail, level) == Ok(Tagged(files, level), tail)
    decreases |files|
  {
    hide EntryBytes, LoadMeta, Tagged, GoodMeta;
    if files == [] {
      assert FilesBytes(files) + tail == tail && Tagged(files, level) == [];
    } else {
      assert FilesBytes(files) + tail == EntryBytes(files[0]) + (FilesBytes(files[1..]) + tail);
      EntryRoundTrip(files[0], level, FilesBytes(files[1..]) + tail);
      FilesRoundTrip(files[1..], level, tail);
      TaggedFirst(files, level);
    }
  }

  lemma {:induction false} FilesLength(files: seq<FileMeta>)
    ensures |FilesBytes(files)| >= LEAST_ENTRY * |files|
  {
    hide EntryBytes;
    if files != [] {
      FilesLength(files[1..]);
    }
  }

  lemma LevelRoundTrip(level: nat, files: seq<FileMeta>, tail: ByteString)
    requires level < MAX_LEVELS && |files| < WORD && GoodFiles(files)
    ensures LoadLevel(LevelBytes(level, files) + tail) == Ok((level, Tagged(files, level)), tail)
  {
    hide U32, ReadU32, FilesBytes, LoadFiles, GoodFiles, Tagged;
    var d2 := FilesBytes(files) + tail;
    assert LevelBytes(level, files) + tail == U32(level) + (U32(|files|) + d2);
    U32Small(level, U32(|files|) + d2);
    U32Small(|files|, d2);
    FilesLength(files);
    FilesRoundTrip(files, level, tail);
  }

  // ---- Reading back all levels ---------------------------------------------------------------------

  function LevelsFrom(levels: Levels, from: nat): (r: set<nat>) {
    set level | level in levels && level >= from
  }

  /** The catalogue as load rebuilds it. */
  function Retagged(levels: Levels): (r: Levels) {
    map level | level in levels :: Tagged(levels[level], level)
  }

  function Upper(levels: Levels, from: nat): (r: Levels) {
    map level | level in levels && level >= from :: Tagged(levels[level], level)
  }

  lemma {:induction false} LevelsRoundTrip(levels: Levels, from: nat, done: Levels, tail: ByteString)
    requires Savable(levels) && forall level | level in done :: level < from
    ensures LoadLevels(|LevelsFrom(levels, from)|, LevelsBytes(levels, from) + tail, done)
            == Ok(done + Upper(levels, from), tail)
    decreases MAX_LEVELS - from
  {
    hide LoadLevel, LevelBytes, LevelsFrom, Upper, GoodFiles, Tagged;
    NextLevel(levels, from);
    if from >= MAX_LEVELS {
      NoLevels(levels, from, done);
      assert LevelsBytes(levels, from) + tail == tail;
    } else if from in levels {
      var rest := LevelsBytes(levels, from + 1) + tail;
      assert LevelsBytes(levels, from) + tail == LevelBytes(from, levels[from]) + rest;
      LevelRoundTrip(from, levels[from], rest);
      LevelsRoundTrip(levels, from + 1, done[from := Tagged(levels[from], from)], tail);
      OneLevel(levels, from, done);
      assert [] + Tagged(levels[from], from) == Tagged(levels[from], from);
    } else {
      assert LevelsBytes(levels, from) == LevelsBytes(levels, from + 1);
      LevelsRoundTrip(levels, from + 1, done, tail);
      OneLevel(levels, from, done);
    }
  }

  lemma NextLevel(levels: Levels, from: nat)
    ensures from in levels ==> |LevelsFrom(levels, from)| == |LevelsFrom(levels, from + 1)| + 1
    ensures from !in levels ==> LevelsFrom(levels, from) == LevelsFrom(levels, from + 1)
  {
    if from in levels {
      assert LevelsFrom(levels, from) == LevelsFrom(levels, from + 1) + {from};
    } else {
      assert LevelsFrom(levels, from) == LevelsFrom(levels, from + 1);
    }
  }

  lemma NoLevels(levels: Levels, from: nat, done: Levels)
    requires from >= MAX_LEVELS && forall level | level in levels :: level < MAX_LEVELS
    ensures LevelsFrom(levels, from) == {} && done + Upper(levels, from) == done
  {
  }

  lemma OneLevel(levels: Levels, from: nat, done: Levels)
    requires forall level | level in done :: level < from
    ensures from in levels ==>
            done[from := Tagged(levels[from], from)] + Upper(levels, from + 1) == done + Upper(levels, from)
    ensures from !in levels ==> Upper(levels, from + 1) == Upper(levels, from)
  {
    hide Tagged;
    if from in levels {
      assert done[from := Tagged(levels[from], from)] + Upper(levels, from + 1) == done + Upper(levels, from);
    }
  }

  lemma AllLevels(levels: Levels)
    ensures |LevelsFrom(levels, 0)| == |levels| && Upper(levels, 0) == Retagged(levels)
  {
    hide Tagged;
    assert LevelsFrom(levels, 0) == levels.Keys;
  }

  /** What save accepts, load reads back exactly when the file stays within load's size limit. */
  lemma RoundTripIff(c: Catalogue)
    requires Savable(c.levels)
    ensures LoadBytes(ManifestBytes(c)) == if |ManifestBytes(c)| <= MAX_FILE then
            Some(Catalogue(c.next, Retagged(c.levels))) else None
  {
    hide U32, ReadU32, U64, ReadLong, LoadLevels, LevelsBytes, GoodFiles, Retagged;
    var d := ManifestBytes(c);
    var d2 := LevelsBytes(c.levels, 0);
    LongRoundTrip(c.next, U32(|c.levels|) + d2);
    U32Small(|c.levels|, d2);
    LevelsRoundTrip(c.levels, 0, map[], []);
    AllLevels(c.levels);
    assert d2 + [] == d2;
    NoneDone(c.levels);
  }

  lemma NoneDone(levels: Levels)
    ensures map[] + Upper(levels, 0) == Retagged(levels)
  {
    AllLevels(levels);
  }

  // ---- A torn or padded file is never accepted -----------------------------------------------------

  lemma LongExtends(d: ByteString, x: ByteString)
    requires ReadLong(d).Ok?
    ensures ReadLong(d + x) == Ok(ReadLong(d).value, ReadLong(d).rest + x)
  {
    assert (d + x)[8..] == d[8..] + x;
    assert (d + x)[4..] == d[4..] + x;
    U32Extends(d, x);
    U32Extends(d[4..], x);
  }

  lemma TextExtends(d: ByteString, x: ByteString)
    requires ReadText(d).Ok?
    ensures ReadText(d + x) == Ok(ReadText(d).value, ReadText(d).rest + x)
  {
    hide ReadU32, ReadBytes;
    U32Extends(d, x);
    BytesExtend(ReadU32(d).value, ReadU32(d).rest, x);
  }

  lemma MetaExtends(d: ByteString, level: nat, x: ByteString)
    requires LoadMeta(d, level).Ok?
    ensures LoadMeta(d + x, level) == Ok(LoadMeta(d, level).value, LoadMeta(d, level).rest + x)
  {
    hide ReadText, ReadLong;
    TextExtends(d, x);
    var d1 := ReadText(d).rest;
    LongExtends(d1, x);
    var d2 := ReadLong(d1).rest;
    TextExtends(d2, x);
    TextExtends(ReadText(d2).rest, x);
  }

  lemma {:induction false} FilesExtend(count: nat, d: ByteString, level: nat, x: ByteString)
    requires LoadFiles(count, d, level).Ok?
    ensures LoadFiles(count, d + x, level) == Ok(LoadFiles(count, d, level).value, LoadFiles(count, d, level).rest + x)
    decreases count
  {
    hide LoadMeta;
    if count > 0 {
      MetaExtends(d, level, x);
      FilesExtend(count - 1, LoadMeta(d, level).rest, level, x);
    }
  }

  lemma LevelExtends(d: ByteString, x: ByteString)
    requires LoadLevel(d).Ok?
    ensures LoadLevel(d + x) == Ok(LoadLevel(d).value, LoadLevel(d).rest + x)
  {
    hide ReadU32, LoadFiles;
    U32Extends(d, x);
    var d1 := ReadU32(d).rest;
    U32Extends(d1, x);
    FilesExtend(ReadU32(d1).value, ReadU32(d1).rest, ReadU32(d).value, x);
  }

  lemma {:induction false} LevelsExtend(count: nat, d: ByteString, levels: Levels, x: ByteString)
    requires LoadLevels(count, d, levels).Ok?
    ensures LoadLevels(count, d + x, levels)
            == Ok(LoadLevels(count, d, levels).value, LoadLevels(count, d, levels).rest + x)
    decreases count
  {
    hide LoadLevel, FilesAt;
    if count > 0 {
      LevelExtends(d, x);
      var (level, files) := LoadLevel(d).value;
      LevelsExtend(count - 1, LoadLevel(d).rest, levels[level := FilesAt(levels, level) + files], x);
    }
  }

  lemma HeaderReads(d: ByteString)
    requires |d| >= 12
    ensures ReadLong(d).Ok? && ReadU32(ReadLong(d).rest).Ok? && |ReadU32(ReadLong(d).rest).rest| == |d| - 12
  {
  }

  /** No accepted file is a proper prefix of another: cut short or padded, a manifest is refused. */
  lemma AcceptedArePrefixFree(d: ByteString, x: ByteString)
    requires LoadBytes(d).Some? && x != []
    ensures LoadBytes(d + x) == None
  {
    hide ReadLong, ReadU32, LoadLevels;
    HeaderReads(d);
    LongExtends(d, x);
    var d1 := ReadLong(d).rest;
    U32Extends(d1, x);
    LevelsExtend(ReadU32(d1).value, ReadU32(d1).rest, map[], x);
  }

  // ---- Whatever load accepts, save writes and load reads again -------------------------------------

  /** Every entry names the level it is listed under. */
  ghost predicate WellTagged(levels: Levels) {
    forall level | level in levels :: forall i | 0 <= i < |levels[level]| :: levels[level][i].level == level
  }

  lemma LoadedMeta(d: ByteString, level: nat)
    requires LoadMeta(d, level).Ok?
    ensures var x := LoadMeta(d, level).value;
            GoodMeta(x) && x.level == level && |EntryBytes(x)| + |LoadMeta(d, level).rest| == |d|
  {
    hide ReadLong, U64;
  }

  lemma {:induction false} LoadedFiles(count: nat, d: ByteString, level: nat)
    requires LoadFiles(count, d, level).Ok?
    ensures var r := LoadFiles(count, d, level);
            && GoodFiles(r.value) && (forall i | 0 <= i < |r.value| :: r.value[i].level == level)
            && |FilesBytes(r.value)| + |r.rest| == |d|
    decreases count
  {
    hide LoadMeta, EntryBytes, GoodMeta;
    if count > 0 {
      LoadedMeta(d, level);
      LoadedFiles(count - 1, LoadMeta(d, level).rest, level);
      var xs := LoadFiles(count - 1, LoadMeta(d, level).rest, level).value;
      assert ([LoadMeta(d, level).value] + xs)[1..] == xs;
    }
  }

  lemma {:induction false} FilesJoin(a: seq<FileMeta>, b: seq<FileMeta>)
    ensures FilesBytes(a + b) == FilesBytes(a) + FilesBytes(b)
  {
    hide EntryBytes;
    if a == [] {
      assert a + b == b;
    } else {
      FilesJoin(a[1..], b);
      assert (a + b)[0] == a[0] && (a + b)[1..] == a[1..] + b;
    }
  }

  /** Listing more files under a level costs their bytes, and a header where the level is new. */
  lemma {:induction false} LevelsGrow(levels: Levels, level: nat, files: seq<FileMeta>, from: nat)
    ensures |LevelsBytes(levels[level := FilesAt(levels, level) + files], from)| <= |LevelsBytes(levels,
            from)| + 8 + |FilesBytes(files)|
    ensures level < from ==>
            LevelsBytes(levels[level := FilesAt(levels, level) + files], from) == LevelsBytes(levels, from)
    decreases MAX_LEVELS - from
  {
    hide U32, FilesBytes;
    if from < MAX_LEVELS {
      LevelsGrow(levels, level, files, from + 1);
      if from == level {
        FilesJoin(FilesAt(levels, level), files);
        NoFilesBytes();
      }
    }
  }

  lemma NoFilesBytes()
    ensures FilesBytes([]) == []
  {
  }

  /** What holds of the levels read so far, given `room` bytes to write them in. */
  ghost predicate Fits(levels: Levels, room: int) {
    && WellTagged(levels) && |LevelsBytes(levels, 0)| <= room
    && forall level | level in levels :: level < MAX_LEVELS && GoodFiles(levels[level])
  }

  lemma LoadedLevel(d: ByteString, levels: Levels, room: int)
    requires LoadLevel(d).Ok? && Fits(levels, room - |d|)
    ensures var (level, files) := LoadLevel(d).value;
            Fits(levels[level := FilesAt(levels, level) + files], room - |LoadLevel(d).rest|)
  {
    hide ReadU32, LoadFiles, FilesBytes, LevelsBytes, GoodMeta;
    var (level, files) := LoadLevel(d).value;
    var d2 := ReadU32(ReadU32(d).rest).rest;
    LoadedFiles(|files|, d2, level) by { CountOf(ReadU32(ReadU32(d).rest).value, d2, level); }
    CountOf(ReadU32(ReadU32(d).rest).value, d2, level);
    LevelsGrow(levels, level, files, 0);
  }

  lemma {:induction false} CountOf(count: nat, d: ByteString, level: nat)
    requires LoadFiles(count, d, level).Ok?
    ensures |LoadFiles(count, d, level).value| == count
    decreases count
  {
    hide LoadMeta;
    if count > 0 {
      CountOf(count - 1, LoadMeta(d, level).rest, level);
    }
  }

  lemma {:induction false} LoadedLevels(count: nat, d: ByteString, levels: Levels, room: int)
    requires LoadLevels(count, d, levels).Ok? && Fits(levels, room - |d|)
    ensures Fits(LoadLevels(count, d, levels).value, room - |LoadLevels(count, d, levels).rest|)
    decreases count
  {
    hide LoadLevel, Fits, FilesAt;
    if count > 0 {
      LoadedLevel(d, levels, room);
      var (level, files) := LoadLevel(d).value;
      LoadedLevels(count - 1, LoadLevel(d).rest, levels[level := FilesAt(levels, level) + files], room);
    }
  }

  lemma NothingFits(room: int)
    requires room >= 0
    ensures Fits(map[], room)
  {
    EmptyLevels(0);
  }

  lemma {:induction false} EmptyLevels(from: nat)
    ensures LevelsBytes(map[], from) == []
    decreases MAX_LEVELS - from
  {
    if from < MAX_LEVELS {
      EmptyLevels(from + 1);
    }
  }

  /** One level's entries are among the bytes of all. */
  lemma {:induction false} LevelWithin(levels: Levels, level: nat, from: nat)
    requires level in levels && from <= level < MAX_LEVELS
    ensures |FilesBytes(levels[level])| <= |LevelsBytes(levels, from)|
    decreases MAX_LEVELS - from
  {
    hide U32, FilesBytes;
    if from < level {
      LevelWithin(levels, level, from + 1);
    }
  }

  lemma {:induction false} AtMostLevels(s: set<nat>, n: nat)
    requires forall x | x in s :: x < n
    ensures |s| <= n
  {
    if n > 0 {
      AtMostLevels(s - {n - 1}, n - 1);
    } else {
      assert s == {};
    }
  }

  lemma FitsIsSavable(levels: Levels, room: int)
    requires Fits(levels, room) && room <= MAX_FILE
    ensures Savable(levels) && Retagged(levels) == levels
  {
    hide LevelsBytes, GoodMeta, FilesBytes;
    AtMostLevels(levels.Keys, MAX_LEVELS);
    forall level | level in levels ensures |levels[level]| < WORD && Tagged(levels[level], level) == levels[level] {
      LevelWithin(levels, level, 0);
      FilesLength(levels[level]);
    }
  }

  /** Accepted bytes, loaded and saved again, give a file no longer than them that loads to the same catalogue. */
  lemma ResaveLoads(d: ByteString)
    requires LoadBytes(d).Some?
    ensures var c := LoadBytes(d).value;
            Savable(c.levels) && |ManifestBytes(c)| <= |d| && LoadBytes(ManifestBytes(c)) == Some(c)
  {
    hide ReadLong, ReadU32, LoadLevels, Fits, Savable, Retagged, LevelsBytes, U64, U32;
    HeaderReads(d);
    var d1 := ReadLong(d).rest;
    var d2 := ReadU32(d1).rest;
    var c := LoadBytes(d).value;
    NothingFits(0);
    LoadedLevels(ReadU32(d1).value, d2, map[], |d2|);
    FitsIsSavable(c.levels, |d2|);
    assert |LevelsBytes(c.levels, 0)| <= |d2| by { FitsWithin(c.levels, |d2|); }
    RoundTripIff(c);
  }

  lemma FitsWithin(levels: Levels, room: int)
    requires Fits(levels, room)
    ensures |LevelsBytes(levels, 0)| <= room
  {
  }

  // ---- A manifest that save writes and load refuses ------------------------------------------------

  lemma LongPath(x: FileMeta)
    ensures |EntryBytes(x)| >= |x.path|
  {
    hide U64, Sized;
  }

  lemma {:induction false} LongPaths(files: seq<FileMeta>, n: nat)
    requires forall i | 0 <= i < |files| :: |files[i].path| >= n
    ensures |FilesBytes(files)| >= |files| * n
  {
    hide EntryBytes;
    if files != [] {
      LongPaths(files[1..], n);
      LongPath(files[0]);
      assert |files| * n == (|files| - 1) * n + n;
    }
  }

  function Copies(x: FileMeta, n: nat): (r: seq<FileMeta>)
    ensures |r| == n && forall i | 0 <= i < n :: r[i] == x
  {
    seq(n, i => x)
  }

  /** Save bounds every string but not the file, so a large enough catalogue cannot be opened again. */
  lemma SavedButRefused() returns (c: Catalogue)
    ensures Savable(c.levels) && LoadBytes(ManifestBytes(c)) == None
  {
    hide LevelsBytes, LevelBytes, FilesBytes;
    var path: ByteString := seq(MAX_TEXT, i => 97);
    var files := Copies(FileMeta(0, path, 0, [], []), 257);
    var levels: Levels := map[0 := files];
    c := Catalogue(0, levels);
    LongPaths(files, MAX_TEXT);
    LevelWithin(levels, 0, 0);
    RoundTripIff(c);
  }

  // ---- The manifest --------------------------------------------------------------------------------

  function Without(files: seq<FileMeta>, path: ByteString): (r: seq<FileMeta>) {
    if files == [] then [] else (if files[0].path == path then [] else [files[0]]) + Without(files[1..], path)
  }

  lemma {:induction false} WithoutGrows(files: seq<FileMeta>, path: ByteString, x: FileMeta)
    ensures Without(files + [x], path) == Without(files, path) + if x.path == path then [] else [x]
  {
    if files == [] {
      assert files + [x] == [x] && [x][1..] == [];
    } else {
      WithoutGrows(files[1..], path, x);
      assert (files + [x])[0] == files[0] && (files + [x])[1..] == files[1..] + [x];
    }
  }

  lemma FilesGrow(files: seq<FileMeta>, x: FileMeta)
    ensures FilesBytes(files + [x]) == FilesBytes(files) + EntryBytes(x)
  {
    hide EntryBytes;
    FilesJoin(files, [x]);
    assert [x][1..] == [];
  }

  /** The entries of one level. */
  method WriteFiles(files: seq<FileMeta>) returns (out: ByteString)
    ensures out == FilesBytes(files)
  {
    hide FilesBytes, EntryBytes;
    NoFilesBytes();
    out := [];
    for i := 0 to |files|
      invariant out == FilesBytes(files[..i])
    {
      FilesGrow(files[..i], files[i]);
      assert files[..i + 1] == files[..i] + [files[i]];
      out := out + EntryBytes(files[i]);
    }
    assert files[..|files|] == files;
  }

  method GoodEntries(files: seq<FileMeta>) returns (ok: bool)
    ensures ok <==> GoodFiles(files)
  {
    for i := 0 to |files|
      invariant GoodFiles(files[..i])
    {
      if !GoodMeta(files[i]) {
        assert !GoodMeta(files[i]);
        return false;
      }
    }
    assert files[..|files|] == files;
    return true;
  }

  class Manifest {
    var levels: Levels
    var nextSequence: Word64

    constructor ()
      ensures levels == map[] && nextSequence == 0
    {
      levels := map[];
      nextSequence := 0;
    }

    function Contents(): (c: Catalogue)
      reads this
    {
      Catalogue(nextSequence, levels)
    }

    method AddFile(level: nat, x: FileMeta)
      modifies this`levels
      ensures FilesAt(levels, level) == FilesAt(old(levels), level) + [x]
      ensures forall other | other != level :: FilesAt(levels, other) == FilesAt(old(levels), other)
      ensures levels.Keys == old(levels).Keys + {level}
    {
      levels := levels[level := FilesAt(levels, level) + [x]];
    }

    /** Every entry of the level with that path goes, and the level stays listed. */
    method RemoveFile(level: nat, path: ByteString)
      modifies this`levels
      ensures levels == old(levels)[level := Without(FilesAt(old(levels), level), path)]
    {
      hide Without;
      var files := FilesAt(levels, level);
      var kept: seq<FileMeta> := [];
      assert Without([], path) == [] by { NothingWithout(path); }
      for i := 0 to |files|
        invariant kept == Without(files[..i], path) && levels == old(levels)
      {
        WithoutGrows(files[..i], path, files[i]);
        assert files[..i + 1] == files[..i] + [files[i]];
        if files[i].path != path {
          kept := kept + [files[i]];
        }
      }
      assert files[..|files|] == files;
      levels := levels[level := kept];
    }

    method CanSave() returns (ok: bool)
      ensures ok <==> Savable(levels)
    {
      hide GoodFiles;
      if |levels| > MAX_LEVELS {
        return false;
      }
      var todo := levels.Keys;
      while todo != {}
        invariant todo <= levels.Keys
        invariant forall level | level in levels.Keys - todo ::
                  level < MAX_LEVELS && |levels[level]| < WORD && GoodFiles(levels[level])
      {
        var level :| level in todo;
        if level >= MAX_LEVELS || |levels[level]| >= WORD {
          return false;
        }
        var good := GoodEntries(levels[level]);
        if !good {
          return false;
        }
        todo := todo - {level};
      }
      return true;
    }

    /** The bytes that save publishes under the manifest's name, unless it refuses. */
    method Save() returns (file: Option<ByteString>)
      ensures file == if Savable(levels) then Some(ManifestBytes(Contents())) else None
    {
      hide Savable, LevelsBytes, FilesBytes, U32, U64;
      var ok := CanSave();
      if !ok {
        return None;
      }
      var out := U64(nextSequence) + U32(|levels|);
      ghost var header := out;
      for level := 0 to MAX_LEVELS
        invariant out + LevelsBytes(levels, level) == header + LevelsBytes(levels, 0)
      {
        LevelsUnfold(levels, level);
        if level in levels {
          var entries := WriteFiles(levels[level]);
          ghost var before, rest := out, LevelsBytes(levels, level + 1);
          out := out + U32(level) + U32(|levels[level]|) + entries;
          assert out + rest == before + (LevelBytes(level, levels[level]) + rest);
        }
      }
      LevelsUnfold(levels, MAX_LEVELS);
      assert out + [] == out;
      assert header + LevelsBytes(levels, 0) == ManifestBytes(Contents());
      return Some(out);
    }

    /** A missing file is an empty catalogue; a refused one changes nothing. */
    method Load(file: Option<ByteString>) returns (ok: bool)
      modifies this
      ensures ok <==> file.None? || LoadBytes(file.value).Some?
      ensures Contents() == if file.Some? && LoadBytes(file.value).Some? then LoadBytes(file.value).value
              else old(Contents())
    {
      hide ReadLong, ReadU32, LoadLevels;
      if file.None? {
        return true;
      }
      var d := file.value;
      if |d| > MAX_FILE || |d| < 12 {
        return false;
      }
      HeaderReads(d);
      var next, d1 := ReadLong(d).value, ReadLong(d).rest;
      var count, d2 := ReadU32(d1).value, ReadU32(d1).rest;
      if count > MAX_LEVELS {
        return false;
      }
      var loaded := ReadLevels(count, d2);
      if loaded.Fail? || loaded.rest != [] {
        return false;
      }
      nextSequence, levels := next, loaded.value;
      return true;
    }
  }

  lemma NothingWithout(path: ByteString)
    ensures Without([], path) == []
  {
  }

  lemma LevelsUnfold(levels: Levels, from: nat)
    requires from <= MAX_LEVELS
    ensures from == MAX_LEVELS ==> LevelsBytes(levels, from) == []
    ensures from < MAX_LEVELS && from in levels ==>
              LevelsBytes(levels, from) == LevelBytes(from, levels[from]) + LevelsBytes(levels, from + 1)
    ensures from < MAX_LEVELS && from !in levels ==> LevelsBytes(levels, from) == LevelsBytes(levels, from + 1)
  {
    hide LevelBytes;
  }

  lemma LoadFilesUnfold(count: nat, d: ByteString, level: nat)
    ensures LoadFiles(0, d, level) == Ok([], d)
    ensures count > 0 && LoadMeta(d, level).Fail? ==> LoadFiles(count, d, level) == Fail
    ensures count > 0 && LoadMeta(d, level).Ok? ==>
              var r := LoadFiles(count - 1, LoadMeta(d, level).rest, level);
              LoadFiles(count, d, level) == if r.Fail? then Fail else Ok([LoadMeta(d, level).value] + r.value, r.rest)
  {
    hide LoadMeta;
  }

  method ReadFiles(count: nat, d: ByteString, level: nat) returns (r: Result<seq<FileMeta>>)
    ensures r == LoadFiles(count, d, level)
  {
    hide LoadFiles, LoadMeta;
    var files: seq<FileMeta>, rest, left: nat := [], d, count;
    ghost var whole := LoadFiles(count, d, level);
    assert whole.Ok? ==> [] + whole.value == whole.value;
    while left > 0
      invariant left <= count
      invariant var tail := LoadFiles(left, rest, level);
                LoadFiles(count, d, level) == if tail.Fail? then Fail else Ok(files + tail.value, tail.rest)
    {
      LoadFilesUnfold(left, rest, level);
      var x := LoadMeta(rest, level);
      if x.Fail? {
        return Fail;
      }
      ghost var tail := LoadFiles(left - 1, x.rest, level);
      if tail.Ok? {
        MoveOne(files, x.value, tail.value);
      }
      files, rest, left := files + [x.value], x.rest, left - 1;
    }
    LoadFilesUnfold(0, rest, level);
    assert files + [] == files;
    return Ok(files, rest);
  }

  lemma LoadLevelsUnfold(count: nat, d: ByteString, levels: Levels)
    ensures LoadLevels(0, d, levels) == Ok(levels, d)
    ensures count > 0 && LoadLevel(d).Fail? ==> LoadLevels(count, d, levels) == Fail
    ensures count > 0 && LoadLevel(d).Ok? ==>
              var (level, files) := LoadLevel(d).value;
              LoadLevels(count, d, levels)
                  == LoadLevels(count - 1, LoadLevel(d).rest, levels[level := FilesAt(levels, level) + files])
  {
    hide LoadLevel;
  }

  method ReadLevels(count: nat, d: ByteString) returns (r: Result<Levels>)
    ensures r == LoadLevels(count, d, map[])
  {
    hide LoadLevels, LoadFiles, ReadU32;
    var levels: Levels, rest, left: nat := map[], d, count;
    while left > 0
      invariant left <= count && LoadLevels(count, d, map[]) == LoadLevels(left, rest, levels)
    {
      LoadLevelsUnfold(left, rest, levels);
      var level := ReadU32(rest);
      if level.Fail? || level.value >= MAX_LEVELS {
        return Fail;
      }
      var fileCount := ReadU32(level.rest);
      if fileCount.Fail? || fileCount.value > |fileCount.rest| / LEAST_ENTRY {
        return Fail;
      }
      var files := ReadFiles(fileCount.value, fileCount.rest, level.value);
      if files.Fail? {
        return Fail;
      }
      levels := levels[level.value := FilesAt(levels, level.value) + files.value];
      rest, left := files.rest, left - 1;
    }
    LoadLevelsUnfold(0, rest, levels);
    return Ok(levels, rest);
  }

  // ---- The engine's catalogue as a manifest --------------------------------------------------------

  /** The directory, and the key range of the file behind each path of the engine's catalogue. */
  datatype Names = Names(dir: ByteString, minKey: Manifests.Path -> ByteString, maxKey: Manifests.Path -> ByteString)

  /** What save demands of paths and keys: names in the directory stay within 1 MiB, and so do the keys. */
  ghost predicate Short(n: Names) {
    |n.dir| + 40 <= MAX_TEXT && forall p :: |n.minKey(p)| <= MAX_TEXT && |n.maxKey(p)| <= MAX_TEXT
  }

  /** "/table_". */
  const TABLE: ByteString := [47, 116, 97, 98, 108, 101, 95]

  /** ".sst" behind a flushed file's number, "_c.sst" behind a compacted one's. */
  function Suffix(p: Manifests.Path): (r: ByteString) {
    if p.Flushed? then [46, 115, 115, 116] else [95, 99, 46, 115, 115, 116]
  }

  /** The path of an SSTable. */
  function FileName(dir: ByteString, p: Manifests.Path): (r: ByteString) {
    dir + TABLE + (DigitsOf(p.n) + Suffix(p))
  }

  /** Different files have different names. */
  lemma NamesApart(dir: ByteString, p: Manifests.Path, q: Manifests.Path)
    ensures FileName(dir, p) == FileName(dir, q) <==> p == q
  {
    hide DigitsOf, Nat, Span;
    if FileName(dir, p) == FileName(dir, q) {
      var a, b := DigitsOf(p.n) + Suffix(p), DigitsOf(q.n) + Suffix(q);
      assert a == FileName(dir, p)[|dir + TABLE|..] && b == FileName(dir, q)[|dir + TABLE|..];
      SpanOf(DigitsOf(p.n), Suffix(p));
      SpanOf(DigitsOf(q.n), Suffix(q));
      assert DigitsOf(p.n) == a[..Span(a)] == DigitsOf(q.n);
      assert Suffix(p) == a[Span(a)..] == Suffix(q);
      DigitsOfNat(p.n);
      DigitsOfNat(q.n);
    }
  }

  /** And names of 64-bit numbers add at most 33 bytes to the directory. */
  lemma NameIsShort(dir: ByteString, p: Manifests.Path)
    requires p.n < WORD * WORD
    ensures |dir| < |FileName(dir, p)| <= |dir| + 33
  {
    hide DigitsOf;
    TwentyDigits(p.n);
  }

  lemma TwentyDigits(n: nat)
    requires n < WORD * WORD
    ensures |DigitsOf(n)| <= 20
  {
    hide DigitsOf;
    assert Pow10(5) == 100000;
    Pow10Adds(5, 5);
    Pow10Adds(10, 10);
    DigitsWithin(n, 20);
  }

  /** Numbers of the source's 64-bit types. */
  predicate Numbered(files: seq<Manifests.Meta>) {
    forall i | 0 <= i < |files| :: files[i].seqno < WORD * WORD && files[i].path.n < WORD * WORD
  }

  predicate Representable(m: Manifests.Manifest) {
    && m.next < WORD * WORD
    && forall level | level in m.levels ::
        level < Manifests.LEVELS && |m.levels[level]| < WORD && Numbered(m.levels[level])
  }

  function MetaOf(x: Manifests.Meta, n: Names): (r: FileMeta)
    requires x.seqno < WORD * WORD
  {
    FileMeta(x.level, FileName(n.dir, x.path), x.seqno, n.minKey(x.path), n.maxKey(x.path))
  }

  function FilesFor(files: seq<Manifests.Meta>, n: Names): (r: seq<FileMeta>)
    requires Numbered(files)
    ensures |r| == |files| && forall i | 0 <= i < |r| :: r[i] == MetaOf(files[i], n)
  {
    seq(|files|, i requires 0 <= i < |files| => MetaOf(files[i], n))
  }

  function CatalogueOf(m: Manifests.Manifest, n: Names): (c: Catalogue)
    requires Representable(m)
  {
    Catalogue(m.next, map level | level in m.levels :: FilesFor(m.levels[level], n))
  }

  lemma SameFiles(a: seq<Manifests.Meta>, b: seq<Manifests.Meta>, n: Names)
    requires Numbered(a) && Numbered(b) && FilesFor(a, n) == FilesFor(b, n)
    ensures a == b
  {
    assert |a| == |FilesFor(a, n)| == |b|;
    forall i | 0 <= i < |a| ensures a[i] == b[i] {
      assert FilesFor(a, n)[i] == FilesFor(b, n)[i];
      NamesApart(n.dir, a[i].path, b[i].path);
    }
  }

  /** Different catalogues are written as different manifests. */
  lemma CatalogueDetermines(a: Manifests.Manifest, b: Manifests.Manifest, n: Names)
    requires Representable(a) && Representable(b) && CatalogueOf(a, n) == CatalogueOf(b, n)
    ensures a == b
  {
    hide FilesFor, Numbered;
    var x, y := CatalogueOf(a, n).levels, CatalogueOf(b, n).levels;
    assert a.levels.Keys == x.Keys && b.levels.Keys == y.Keys;
    forall level | level in a.levels ensures a.levels[level] == b.levels[level] {
      assert x[level] == y[level];
      SameFiles(a.levels[level], b.levels[level], n);
    }
  }

  lemma CatalogueIsSavable(m: Manifests.Manifest, n: Names)
    requires Short(n) && Representable(m) && Manifests.WellLevelled(m)
    ensures Savable(CatalogueOf(m, n).levels) && Retagged(CatalogueOf(m, n).levels) == CatalogueOf(m, n).levels
  {
    hide FileName;
    var levels := CatalogueOf(m, n).levels;
    assert levels.Keys == m.levels.Keys;
    AtMostLevels(levels.Keys, MAX_LEVELS);
    forall level | level in levels ensures GoodFiles(levels[level]) && Tagged(levels[level], level) == levels[level] {
      forall i | 0 <= i < |levels[level]| ensures GoodMeta(levels[level][i]) && levels[level][i].level == level {
        assert levels[level][i] == MetaOf(m.levels[level][i], n);
        NameIsShort(n.dir, m.levels[level][i].path);
      }
    }
  }

  /** What the engine saves is what a restart loads: the same catalogue, and no other one has these bytes. */
  lemma CatalogueSurvives(m: Manifests.Manifest, n: Names)
    requires Short(n) && Representable(m) && Manifests.WellLevelled(m)
    requires |ManifestBytes(CatalogueOf(m, n))| <= MAX_FILE
    ensures LoadBytes(ManifestBytes(CatalogueOf(m, n))) == Some(CatalogueOf(m, n))
    ensures forall m' | Representable(m') && ManifestBytes(CatalogueOf(m', n)) == ManifestBytes(CatalogueOf(m, n))
            && Manifests.WellLevelled(m') ::
              m' == m
  {
    hide Short, Representable, CatalogueOf, ManifestBytes, LoadBytes, Savable, Retagged, Manifests.WellLevelled;
    CatalogueIsSavable(m, n);
    RoundTripIff(CatalogueOf(m, n));
    forall m' | Representable(m') && ManifestBytes(CatalogueOf(m', n)) == ManifestBytes(CatalogueOf(m, n))
        && Manifests.WellLevelled(m')
      ensures m' == m
    {
      CatalogueIsSavable(m', n);
      RoundTripIff(CatalogueOf(m', n));
      CatalogueDetermines(m', m, n);
    }
  }

  /** Adding and removing a file in the manifest is adding and removing it in the catalogue. */
  lemma EditsAgree(m: Manifests.Manifest, n: Names, level: nat, x: Manifests.Meta)
    requires Representable(m) && level < Manifests.LEVELS && x.seqno < WORD * WORD && x.path.n < WORD * WORD
    requires |Manifests.LevelFiles(m, level)| + 1 < WORD
    ensures var levels := CatalogueOf(m, n).levels;
            && Representable(Manifests.AddFile(m, level, x)) && Representable(Manifests.RemoveFile(m, level, x.path))
            && CatalogueOf(Manifests.AddFile(m, level, x), n).levels
                == levels[level := FilesAt(levels, level) + [MetaOf(x, n)]]
            && CatalogueOf(Manifests.RemoveFile(m, level, x.path), n).levels
               == levels[level := Without(FilesAt(levels, level), FileName(n.dir, x.path))]
  {
    var files := Manifests.LevelFiles(m, level);
    hide FilesFor, Without, Manifests.Without, MetaOf, FileName;
    WithoutAgrees(files, n, x.path);
    FilesForLast(files, x, n);
    NoFilesFor(n);
    FilesAtAgrees(m, n, level);
  }

  lemma FilesAtAgrees(m: Manifests.Manifest, n: Names, level: nat)
    requires Representable(m)
    ensures Numbered(Manifests.LevelFiles(m, level))
    ensures FilesAt(CatalogueOf(m, n).levels, level) == FilesFor(Manifests.LevelFiles(m, level), n)
  {
    hide FilesFor;
    NoFilesFor(n);
  }

  lemma {:induction false} WithoutAgrees(files: seq<Manifests.Meta>, n: Names, p: Manifests.Path)
    requires Numbered(files)
    ensures Numbered(Manifests.Without(files, p)) && |Manifests.Without(files, p)| <= |files|
    ensures FilesFor(Manifests.Without(files, p), n) == Without(FilesFor(files, n), FileName(n.dir, p))
  {
    hide FilesFor, FileName;
    if files == [] {
      NoFilesFor(n);
    } else {
      WithoutAgrees(files[1..], n, p);
      FilesForFirst(files, n);
      NamesApart(n.dir, files[0].path, p);
      WithoutFirst(MetaOf(files[0], n), FilesFor(files[1..], n), FileName(n.dir, p));
      var rest := Manifests.Without(files[1..], p);
      if files[0].path != p {
        var kept := [files[0]] + rest;
        assert kept[1..] == rest && Manifests.Without(files, p) == kept;
        FilesForFirst(kept, n);
      } else {
        assert Manifests.Without(files, p) == rest;
      }
    }
  }

  lemma NoFilesFor(n: Names)
    ensures FilesFor([], n) == []
  {
  }

  lemma FilesForFirst(files: seq<Manifests.Meta>, n: Names)
    requires files != [] && Numbered(files)
    ensures FilesFor(files, n) == [MetaOf(files[0], n)] + FilesFor(files[1..], n)
  {
  }

  lemma FilesForLast(files: seq<Manifests.Meta>, x: Manifests.Meta, n: Names)
    requires Numbered(files) && x.seqno < WORD * WORD && x.path.n < WORD * WORD
    ensures FilesFor(files + [x], n) == FilesFor(files, n) + [MetaOf(x, n)]
  {
  }

  lemma WithoutFirst(x: FileMeta, rest: seq<FileMeta>, path: ByteString)
    ensures Without([x] + rest, path) == if x.path == path then Without(rest, path) else [x] + Without(rest, path)
  {
    assert ([x] + rest)[1..] == rest;
  }
}
