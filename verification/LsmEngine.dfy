/**
 LsmEngine (src/engine/lsm/lsm_engine.cpp): the object whose critical sections the state machine's steps
 describe.  Each method is proved to do what the matching step does, or to return what the plain
 specification store holds.
 */
module LsmEngines {
  import opened Bytes
  import opened Values
  import opened Layers
  import opened Memtables
  import opened Manifests
  import opened LsmStates
  import opened LsmInvariants
  import opened LsmSteps
  import opened LsmOpening
  import opened LsmProgress
  import opened LsmTheorems
  import opened KWayMerge
  import opened MergedReaders
  import opened Snapshots
  import opened Listings
  import opened Paging
  import opened EngineReads
  import opened Tables

  /** The write a mutation asks for. */
  function WritesOf(k: Key, m: Mutation): (ws: seq<Write>) {
    match m
    case NoWrite => []
    case PutItem(item) => [Put(k, item)]
    case DeleteItem => [Del(k)]
  }

  lemma {:induction false} FrozenLayersLast(frozen: seq<Frozen>, i: nat)
    requires i < |frozen|
    ensures FrozenLayers(frozen[..i + 1]) == [frozen[i].table] + FrozenLayers(frozen[..i])
    decreases i
  {
    if i == 0 {
      assert frozen[..1] == [frozen[0]] && frozen[..1][1..] == [] && frozen[..0] == [];
    } else {
      FrozenLayersLast(frozen[1..], i - 1);
      assert frozen[..i + 1][1..] == frozen[1..][..i] && frozen[..i][1..] == frozen[1..][..i - 1];
      assert frozen[..i + 1][0] == frozen[0] && frozen[..i][0] == frozen[0] && frozen[1..][i - 1] == frozen[i];
    }
  }

  function EntryValue(e: Entry): (r: Option<Item>) {
    if e.deleted then None else Some(e.item)
  }

  lemma LookupHead(l: Layer, rest: seq<Layer>, k: Key)
    ensures Lookup([l] + rest, k) == if k in l then EntryValue(l[k]) else Lookup(rest, k)
  {
    assert ([l] + rest)[1..] == rest;
  }

  lemma LookupMemtable(e: Engine, k: Key)
    ensures LsmStates.GetLocked(e, k)
         == if k in e.memtable then EntryValue(e.memtable[k]) else Lookup(FrozenLayers(e.frozen) + SstLayers(e.ssts), k)
  {
    LookupHead(e.memtable, FrozenLayers(e.frozen) + SstLayers(e.ssts), k);
    assert EngineLayers(e) == [e.memtable] + (FrozenLayers(e.frozen) + SstLayers(e.ssts));
  }

  lemma LookupFrozen(frozen: seq<Frozen>, i: nat, older: seq<Layer>, k: Key)
    requires i < |frozen|
    ensures Lookup(FrozenLayers(frozen[..i + 1]) + older, k)
         == if k in frozen[i].table then EntryValue(frozen[i].table[k])
             else Lookup(FrozenLayers(frozen[..i]) + older, k)
  {
    FrozenLayersLast(frozen, i);
    LookupHead(frozen[i].table, FrozenLayers(frozen[..i]) + older, k);
    assert FrozenLayers(frozen[..i + 1]) + older == [frozen[i].table] + (FrozenLayers(frozen[..i]) + older);
  }

  lemma LookupSst(ssts: seq<Sst>, j: nat, k: Key)
    requires j < |ssts|
    ensures Lookup(SstLayers(ssts[j..]), k)
         == if k in ssts[j].entries then EntryValue(ssts[j].entries[k]) else Lookup(SstLayers(ssts[j + 1..]), k)
  {
    assert ssts[j..][0] == ssts[j] && ssts[j..][1..] == ssts[j + 1..];
    LookupHead(ssts[j].entries, SstLayers(ssts[j + 1..]), k);
  }

  lemma LookupEnds(frozen: seq<Frozen>, ssts: seq<Sst>, k: Key)
    ensures FrozenLayers(frozen[..|frozen|]) + SstLayers(ssts) == FrozenLayers(frozen) + SstLayers(ssts)
    ensures FrozenLayers(frozen[..0]) + SstLayers(ssts) == SstLayers(ssts[0..])
    ensures Lookup(SstLayers(ssts[|ssts|..]), k) == None
  {
    assert frozen[..|frozen|] == frozen && frozen[..0] == [] && ssts[0..] == ssts && ssts[|ssts|..] == [];
  }

  lemma RowsOfOneMore(l: Layer, rest: seq<Layer>, before: seq<seq<Row>>)
    ensures before + RowsOfAll([l] + rest) == (before + [RowsOf(l)]) + RowsOfAll(rest)
  {
    hide RowsOf;
    assert RowsOfAll([l] + rest) == [RowsOf(l)] + RowsOfAll(rest);
  }

  /** The layers of a live engine, flattened, are the specification store. */
  lemma LayersAreContents(s: State)
    requires Live(s)
    ensures Apply(map[], Stack(EngineLayers(s.phase.e))) == Contents(s)
  {
    hide Live, Contents, Apply, Stack, EngineLayers, Find;
    RunsWhenLive(s);
    forall k: Key ensures Find(Apply(map[], Stack(EngineLayers(s.phase.e))), k) == Find(Contents(s), k) {
      LiveRefines(s, k);
      LookupIsFind(EngineLayers(s.phase.e), k);
    }
    SameFinds(Apply(map[], Stack(EngineLayers(s.phase.e))), Contents(s));
  }

  // ---- Dropping a table ----------------------------------------------------------------------------

  /** The store once every key with the prefix up to the cursor is gone. */
  ghost function Undropped(s: Store, prefix: ByteString, cursor: Option<Key>): (r: Store) {
    map k | k in s && (HasPrefix(k, prefix) ==> InScope(k, prefix, cursor, true)) :: s[k]
  }

  ghost function KeySet(keys: seq<Key>): (r: set<Key>) {
    set k | k in keys
  }

  /** A batch holds exactly the keys between the old cursor and the new one. */
  lemma BatchKeys(s: Store, rows: seq<Pair>, prefix: ByteString, cursor: Option<Key>, n: nat, x: Key)
    requires Listing(rows, s, prefix, cursor, true) && 0 < n <= |rows| && x in s
    requires HasPrefix(x, prefix) ==> InScope(x, prefix, cursor, true)
    ensures x in KeysOf(rows[..n]) <==> HasPrefix(x, prefix) && !InScope(x, prefix, Some(rows[n - 1].key), true)
  {
    AheadLaws(true);
    var last := rows[n - 1].key;
    if x in KeysOf(rows[..n]) {
      var j :| 0 <= j < n && KeysOf(rows[..n])[j] == x;
      assert rows[j] in rows;
      assert j < n - 1 ==> Ahead(rows[j].key, last, true);
    }
    assert forall m | n - 1 < m < |rows| :: Ahead(last, rows[m].key, true);
    if HasPrefix(x, prefix) && !InScope(x, prefix, Some(last), true) {
      assert Pair(x, s[x]) in rows;
      var j :| 0 <= j < |rows| && rows[j] == Pair(x, s[x]);
      assert KeysOf(rows[..n])[j] == x;
    }
  }

  lemma BatchDropped(s0: Store, s: Store, prefix: ByteString, cursor: Option<Key>, n: nat)
    requires s == Undropped(s0, prefix, cursor) && 0 < n <= |Listed(s, prefix, cursor, true)|
    ensures var rows := Listed(s, prefix, cursor, true);
            && s - KeySet(KeysOf(rows[..n])) == Undropped(s0, prefix, Some(rows[n - 1].key))
            && InScope(rows[n - 1].key, prefix, cursor, true)
  {
    hide Listed;
    var rows := Listed(s, prefix, cursor, true);
    ListedIsListing(s, prefix, cursor, true);
    AheadLaws(true);
    assert rows[n - 1] in rows;
    forall x | x in s
      ensures x in KeysOf(rows[..n]) <==> HasPrefix(x, prefix) && !InScope(x, prefix, Some(rows[n - 1].key), true)
    {
      BatchKeys(s, rows, prefix, cursor, n, x);
    }
  }

  lemma NothingListed(s0: Store, s: Store, prefix: ByteString, cursor: Option<Key>)
    requires s == Undropped(s0, prefix, cursor) && Listed(s, prefix, cursor, true) == []
    ensures s == map k | k in s0 && !HasPrefix(k, prefix) :: s0[k]
  {
    ListedIsListing(s, prefix, cursor, true);
    hide Listed;
    forall k | k in s ensures !HasPrefix(k, prefix) {
      assert Pair(k, s[k]) !in Listed(s, prefix, cursor, true);
    }
  }

  lemma NoCursor(s: Store, prefix: ByteString)
    ensures Undropped(s, prefix, None) == s && StartFits(prefix, None, true)
  {
  }

  /** After a batch the new cursor fits the prefix, and less is left to list. */
  lemma BatchLeft(s: Store, s': Store, prefix: ByteString, cursor: Option<Key>, n: nat)
    requires 0 < n <= |Listed(s, prefix, cursor, true)|
    requires s' == s - KeySet(KeysOf(Listed(s, prefix, cursor, true)[..n]))
    ensures var k := Listed(s, prefix, cursor, true)[n - 1].key;
            && StartFits(prefix, Some(k), true)
            && |Listed(s', prefix, Some(k), true)| < |Listed(s, prefix, cursor, true)|
  {
    hide Listed;
    var rows := Listed(s, prefix, cursor, true);
    var k := rows[n - 1].key;
    ListedIsListing(s, prefix, cursor, true);
    assert rows[n - 1] in rows;
    PrefixedStartFits(prefix, k, true);
    SuffixLists(rows, s, prefix, cursor, true, n - 1);
    ListedIsListing(s', prefix, Some(k), true);
    SuffixSurvives(rows, s, s', prefix, cursor, n);
    ListingUnique(Listed(s', prefix, Some(k), true), rows[n..], s', prefix, Some(k), true);
  }

  lemma SuffixSurvives(rows: seq<Pair>, s: Store, s': Store, prefix: ByteString, cursor: Option<Key>, n: nat)
    requires Listing(rows, s, prefix, cursor, true) && 0 < n <= |rows|
    requires s' == s - KeySet(KeysOf(rows[..n]))
    requires Listing(rows[n..], s, prefix, Some(rows[n - 1].key), true)
    ensures Listing(rows[n..], s', prefix, Some(rows[n - 1].key), true)
  {
    hide InScope;
    AheadLaws(true);
    forall p | p in rows[n..] ensures p.key !in KeySet(KeysOf(rows[..n])) {
      var j :| 0 <= j < |rows[n..]| && rows[n..][j] == p;
      assert rows[n + j] == p;
      assert forall i | 0 <= i < n :: Ahead(rows[i].key, rows[n + j].key, true);
    }
  }

  lemma OneMoreSpec(hist: seq<Write>, w: Write)
    ensures Spec(map[], hist + [w]) == ApplyWrite(Spec(map[], hist), w)
  {
    assert (hist + [w])[..|hist|] == hist;
  }

  lemma OneMoreKey(s: Store, keys: seq<Key>, i: nat)
    requires i < |keys|
    ensures s - KeySet(keys[..i + 1]) == s - KeySet(keys[..i]) - {keys[i]}
  {
    assert keys[..i + 1] == keys[..i] + [keys[i]];
  }

  lemma AtMostIsPrefix<T>(rows: seq<T>, cap: nat)
    ensures |AtMost(rows, cap)| <= |rows| && AtMost(rows, cap) == rows[..|AtMost(rows, cap)|]
  {
  }

  lemma NoKeys(s: Store, keys: seq<Key>)
    ensures s - KeySet(keys[..0]) == s
  {
  }

  lemma HistoryGrows(s: State, w: Write)
    requires IsRunning(s) && HasActiveWal(s)
    ensures DoWrite(s, w).hist == s.hist + [w] && IsRunning(DoWrite(s, w))
  {
  }

  /** A memtable that reaches its threshold is replaced by an empty one. */
  lemma RoomAfterWrite(s: State, w: Write)
    requires IsRunning(s) && HasActiveWal(s)
    ensures |DoWrite(s, w).phase.e.memtable| < THRESHOLD
  {
    hide Inserted;
  }

  lemma OneMoreValid(hist: seq<Write>, w: Write)
    requires ValidKeys(hist) && ValidKey(w.key)
    ensures ValidKeys(hist + [w])
  {
    hide ValidKey;
  }

  lemma BatchValid(s: Store, prefix: ByteString, cursor: Option<Key>, n: nat)
    requires n <= |Listed(s, prefix, cursor, true)| && forall k | k in s :: ValidKey(k)
    ensures var keys := KeysOf(Listed(s, prefix, cursor, true)[..n]);
            forall i | 0 <= i < |keys| :: ValidKey(keys[i])
  {
    hide Listed, ValidKey;
    var rows := Listed(s, prefix, cursor, true);
    ListedIsListing(s, prefix, cursor, true);
    forall i | 0 <= i < n ensures rows[i].key in s {
      assert rows[i] in rows;
    }
  }

  lemma FoundWhenLive(s: State, k: Key)
    requires IsRunning(s)
    ensures Live(s) ==> LsmStates.GetLocked(s.phase.e, k) == Find(Spec(map[], s.hist), k)
  {
    hide Spec, LsmStates.GetLocked, Find;
    if Live(s) {
      LiveRefines(s, k);
    }
  }

  lemma OneSpec(s: Store, w: Write)
    ensures Spec(s, [w]) == ApplyWrite(s, w)
  {
    assert [w][..0] == [];
  }

  lemma NoMoreSpec(s: Store, hist: seq<Write>)
    ensures Spec(s, []) == s && hist + [] == hist
  {
  }

  // ---- Choosing and replacing files ----------------------------------------------------------------

  /** The run compact() merges, newest first. */
  function RunOf(ssts: seq<Sst>, start: Option<nat>): (r: seq<Sst>)
    requires start.Some? ==> start.value + FANOUT <= |ssts|
  {
    match start case None => [] case Some(i) => ssts[i..i + FANOUT]
  }

  function Backwards(ssts: seq<Sst>): (r: seq<Sst>) {
    seq(|ssts|, i requires 0 <= i < |ssts| => ssts[|ssts| - 1 - i])
  }

  lemma BackwardsNothing(ssts: seq<Sst>)
    requires ssts == []
    ensures Backwards(ssts) == []
  {
  }

  lemma BackwardsGrows(ssts: seq<Sst>, i: nat, n: nat)
    requires i + n < |ssts|
    ensures Backwards(ssts[i + 1..i + 1 + n]) + [ssts[i]] == Backwards(ssts[i..i + 1 + n])
    ensures Backwards(Backwards(ssts[i..i + 1 + n])) == ssts[i..i + 1 + n]
  {
  }

  lemma ScanStep(ssts: seq<Sst>, i: nat, len: nat)
    requires len < FANOUT && i + len < |ssts|
    ensures var next := if len > 0 && SizeTier(ssts[i].size) == SizeTier(ssts[i + 1].size) then len + 1 else 1;
            ScanRun(ssts, i, len) == if next == FANOUT then Some(i) else ScanRun(ssts, i - 1, next)
  {
  }

  lemma ScanEnds(ssts: seq<Sst>, len: nat)
    requires len < FANOUT && len <= |ssts|
    ensures ScanRun(ssts, -1, len) == None
  {
  }

  /** compact()'s selection loop, with its run list and run tier. */
  method SelectFiles(ssts: seq<Sst>) returns (inputs: seq<Sst>)
    ensures SelectRun(ssts).Some? ==> SelectRun(ssts).value + FANOUT <= |ssts|
    ensures inputs == RunOf(ssts, SelectRun(ssts))
  {
    hide Backwards, ScanRun, SizeTier;
    if |ssts| < FANOUT {
      return [];
    }
    var run: seq<Sst>, tier: Option<nat> := [], None;
    var i := |ssts| - 1;
    BackwardsNothing(ssts[|ssts|..|ssts|]);
    while i >= 0
      invariant -1 <= i < |ssts| && |run| < FANOUT && i + |run| < |ssts|
      invariant run == Backwards(ssts[i + 1..i + 1 + |run|])
      invariant tier == if |run| > 0 then Some(SizeTier(ssts[i + 1].size)) else None
      invariant SelectRun(ssts) == ScanRun(ssts, i, |run|)
    {
      ScanStep(ssts, i, |run|);
      var t := SizeTier(ssts[i].size);
      if tier != Some(t) {
        run := [];
        tier := Some(t);
        BackwardsNothing(ssts[i + 1..i + 1]);
      }
      BackwardsGrows(ssts, i, |run|);
      run := run + [ssts[i]];
      if |run| == FANOUT {
        return Backwards(run);
      }
      i := i - 1;
    }
    ScanEnds(ssts, |run|);
    return [];
  }

  lemma SpliceStep(ssts: seq<Sst>, j: nat, obsolete: seq<Path>, sst: Sst, inserted: bool)
    requires j < |ssts|
    ensures Splice(ssts[j..], obsolete, sst, inserted)
         == if ssts[j].path !in obsolete then [ssts[j]] + Splice(ssts[j + 1..], obsolete, sst, inserted)
            else if inserted then Splice(ssts[j + 1..], obsolete, sst, true)
            else [sst] + Splice(ssts[j + 1..], obsolete, sst, true)
  {
    assert ssts[j..][0] == ssts[j] && ssts[j..][1..] == ssts[j + 1..];
  }

  lemma NothingToSplice(obsolete: seq<Path>, sst: Sst)
    ensures forall inserted :: Splice([], obsolete, sst, inserted) == if inserted then [] else [sst]
  {
  }

  /** The publish loop: the output takes the place of the first input, the other inputs go. */
  method ReplaceFiles(ssts: seq<Sst>, obsolete: seq<Path>, sst: Sst) returns (kept: seq<Sst>)
    ensures kept == Splice(ssts, obsolete, sst, false)
  {
    kept := [];
    var inserted := false;
    var j := 0;
    assert ssts[0..] == ssts;
    NothingToSplice(obsolete, sst);
    hide Splice;
    while j < |ssts|
      invariant 0 <= j <= |ssts|
      invariant kept + Splice(ssts[j..], obsolete, sst, inserted) == Splice(ssts, obsolete, sst, false)
    {
      SpliceStep(ssts, j, obsolete, sst, inserted);
      if ssts[j].path in obsolete {
        if !inserted {
          MoveOne(kept, sst, Splice(ssts[j + 1..], obsolete, sst, true));
          kept := kept + [sst];
          inserted := true;
        }
      } else {
        MoveOne(kept, ssts[j], Splice(ssts[j + 1..], obsolete, sst, inserted));
        kept := kept + [ssts[j]];
      }
      j := j + 1;
    }
    assert ssts[j..] == [];
    if !inserted {
      kept := kept + [sst];
    }
  }

  /** The merge of the chosen files, as the entries of the file compact() writes. */
  method MergeFiles(inputs: seq<Sst>, complete: bool) returns (out: seq<Row>)
    ensures Ordered(out, true)
    ensures RowsLayer(out) == MergedEntries(inputs, complete)
  {
    var tables := RowsOfAll(SstLayers(inputs));
    RowsOfAllAre(SstLayers(inputs));
    out := MergeTables(tables, complete);
  }

  // ---- Replaying the log ---------------------------------------------------------------------------

  ghost predicate SortedGens(gens: seq<nat>, wals: map<nat, Wal>) {
    Ascending(gens) && Covers(gens, wals)
  }

  function Larger(a: nat, b: nat): (m: nat) {
    if a < b then b else a
  }

  /** One segment's records, put into the memtable in turn; it keeps them all exactly when it can hold them. */
  method ApplyRecords(table: Layer, records: seq<Write>) returns (r: Layer)
    ensures r == Filled(table, records)
    ensures Holdable(table) ==> (r == table + LogLayer(records) <==> Holdable(table + LogLayer(records)))
  {
    hide Inserted, Holdable, LogLayer;
    if Holdable(table) {
      FillIff(table, records);
    }
    r := table;
    var j := 0;
    while j < |records|
      invariant 0 <= j <= |records|
      invariant r == Filled(table, records[..j])
    {
      assert records[..j + 1][..j] == records[..j];
      r := Inserted(r, records[j].key, EntryOf(records[j]));
      j := j + 1;
    }
    assert records[..j] == records;
  }

  lemma FillOneMore(wals: map<nat, Wal>, gens: seq<nat>, i: nat)
    requires i < |gens| && forall j | 0 <= j < |gens| :: gens[j] in wals
    ensures FillList(wals, gens[..i + 1]) == Filled(FillList(wals, gens[..i]), wals[gens[i]].records)
  {
    assert gens[..i + 1][..i] == gens[..i];
  }

  lemma LastGeneration(wals: map<nat, Wal>, gens: seq<nat>)
    requires SortedGens(gens, wals)
    ensures NextGeneration(wals) == if gens == [] then 0 else gens[|gens| - 1] + 1
  {
    if gens != [] {
      TopOfList(wals, gens);
      assert MaxOf(wals.Keys) == gens[|gens| - 1];
    } else {
      assert wals == map[];
    }
  }

  lemma SortedFacts(wals: map<nat, Wal>, gens: seq<nat>)
    requires SortedGens(gens, wals)
    ensures forall j | 0 <= j < |gens| :: gens[j] in wals
    ensures forall i, j | 0 <= i < j < |gens| :: gens[i] < gens[j]
    ensures Refill(wals) == FillList(wals, gens)
    ensures NextGeneration(wals) == if gens == [] then 0 else gens[|gens| - 1] + 1
  {
    hide Refill, FillList;
    RefillInOrder(wals, gens);
    LastGeneration(wals, gens);
  }

  /** recover_from_wal over the segments sorted by generation: every record in turn, into one memtable. */
  method ReplaySegments(wals: map<nat, Wal>, gens: seq<nat>) returns (memtable: Layer, next: nat)
    requires SortedGens(gens, wals)
    ensures memtable == Refill(wals)
    ensures memtable == Replay(wals) <==> Holdable(Replay(wals))
    ensures next == NextGeneration(wals)
  {
    hide Replay, Refill, LogLayer, SortedGens, NextGeneration, Filled, Holdable;
    RefillIff(wals);
    SortedFacts(wals, gens);
    memtable := map[];
    next := 0;
    var i := 0;
    while i < |gens|
      invariant 0 <= i <= |gens|
      invariant memtable == FillList(wals, gens[..i])
      invariant next == if i == 0 then 0 else gens[i - 1] + 1
    {
      FillOneMore(wals, gens, i);
      memtable := ApplyRecords(memtable, wals[gens[i]].records);
      next := Larger(next, gens[i] + 1);
      i := i + 1;
    }
    assert gens[..i] == gens;
  }

  /** What a reader over the engine's levels offers, whatever the start key. */
  ghost function Offered(e: Engine, prefix: ByteString, start: Option<Key>, forward: bool): (r: seq<Pair>) {
    LiveRows(Merge(Contributions(RowsOfAll(EngineLayers(e)), prefix, start, forward), forward))
  }

  /** The page with its last key cut back to the table's own key. */
  function CutBack(p: ByteString, page: Page): (r: Page) {
    if page.last.None? then page
    else page.(last := Some(if |page.last.value| < |p| then [] else page.last.value[|p|..]))
  }

  /** The records of a checkpoint: one for each entry, in key order. */
  method Checkpoint(table: Layer) returns (order: seq<Write>)
    requires Recorded(table)
    ensures Enumerates(order, table)
  {
    hide RowsOf, RowsLayer;
    var rows := RowsOf(table);
    RowsOfIs(table);
    RowsLayerKeys(rows);
    order := [];
    for i := 0 to |rows|
      invariant |order| == i
      invariant forall j | 0 <= j < i :: order[j].key == rows[j].key && EntryOf(order[j]) == rows[j].entry
    {
      RowsLayerAt(rows, true, i);
      var row := rows[i];
      order := order + [if row.entry.deleted then Del(row.key) else Write.Put(row.key, row.entry.item)];
    }
    forall j | 0 <= j < |order| ensures order[j].key in table && table[order[j].key] == EntryOf(order[j]) {
      RowsLayerAt(rows, true, j);
    }
    forall k | k in table ensures exists j :: 0 <= j < |order| && order[j].key == k {
      var j :| 0 <= j < |rows| && rows[j].key == k;
      assert order[j].key == k;
    }
  }

  // ---- The engine ----------------------------------------------------------------------------------

  class LsmEngine {
    var memtable: Layer
    var immutables: seq<Frozen>
    var sstables: seq<Sst>
    var generation: nat
    var manifest: Manifest
    var flush: FlushPc
    var compaction: CompactPc
    var wals: map<nat, Wal>
    var saved: Manifest
    var files: map<Path, Sst>
    ghost var writers: map<nat, Writer>
    ghost var unlinked: map<nat, Wal>
    ghost var hist: seq<Write>
    ghost var acked: nat
    ghost var base: nat
    ghost var ckpt: nat

    ghost function View(): (s: State)
      reads this
    {
      State(Disk(wals, saved, files),
            Running(Engine(memtable, immutables, sstables, generation, manifest, flush, compaction, writers, unlinked)),
            hist, acked, base, ckpt)
    }

    /** The plain map this engine stands for. */
    ghost function Store(): (s: Layers.Store)
      reads this
    {
      Spec(map[], hist)
    }

    /** The engine keeps the state machine's invariant, and its memtable has room. */
    ghost predicate Valid()
      reads this
    {
      Live(View()) && |memtable| < MAX_ENTRIES && ValidKeys(hist)
    }

    /**
     Opens a directory that a crash left, or an empty one: loads the manifest's files, removes the others, replays
     the segments, writes the recovered memtable to a fresh segment and deletes the old ones.  It holds the
     history unless the memtable could not take all the segments say.
     */
    constructor (wals: map<nat, Wal>, saved: Manifest, files: map<Path, Sst>, gens: seq<nat>, ghost hist: seq<Write>,
                 ghost acked: nat)
      requires SortedGens(gens, wals) && Inv(State(Disk(wals, saved, files), Down, hist, acked, 0, 0))
      ensures this.hist == hist && this.acked == acked && memtable == Refill(wals)
      ensures Live(View()) <==> forall k :: !Forgotten(State(Disk(wals, saved, files), Down, hist, acked, 0, 0), k)
      ensures Holdable(Replay(wals)) && |Replay(wals)| < MAX_ENTRIES && ValidKeys(hist) ==> Valid()
      ensures exists more ::
              Quiet(more) && Run(State(Disk(wals, saved, files), Down, hist, acked, 0, 0), more) == Some(View())
    {
      hide Live, Formed, Booked, HeldAt, Replay, Refill, Order, AllPresent, Referenced, Run, Quiet, SortedGens;
      hide Holdable, Forgotten;
      hide ValidKeys;
      ghost var s := State(Disk(wals, saved, files), Down, hist, acked, 0, 0);
      FilesPresent(s);
      var table, next := ReplaySegments(wals, gens);
      RefillIsRecorded(wals);
      var order := Checkpoint(table);
      ghost var steps := OpensByRunning(s, order);
      this.memtable, immutables, sstables, generation := table, [], Opened(Order(saved), files), next;
      this.manifest, flush, compaction := saved, FlushIdle, CompactIdle;
      this.wals, this.saved, this.files := map[next := Wal(order, |order|)], saved, Referenced(saved, files);
      this.writers, this.unlinked := map[], map[];
      this.hist, this.acked, this.base, this.ckpt := hist, acked, |hist|, |order|;
      new;
      assert View() == Recovered(s, order);
      if Holdable(Replay(wals)) {
        forall k: Key ensures !Forgotten(s, k) {
          NothingForgotten(s, k);
        }
      }
    }

    // ---- Writing -----------------------------------------------------------------------------------

    method AppendToWal(w: Write)
      requires generation in wals
      modifies this`wals, this`memtable, this`writers, this`hist
      ensures View() == Append(old(View()), w)
    {
      hide Inserted, EntryOf;
      wals := wals[generation := Wal(wals[generation].records + [w], wals[generation].durable)];
      memtable := Inserted(memtable, w.key, EntryOf(w));
      writers := writers[|hist| := Appended(generation)];
      hist := hist + [w];
    }

    method SyncWal()
      requires generation in wals
      modifies this`wals
      ensures View() == DoReachDevice(old(View()), |old(wals)[generation].records|)
    {
      wals := wals[generation := wals[generation].(durable := |wals[generation].records|)];
    }

    /** The memtable joins the immutable ones and a fresh segment opens. */
    method FreezeMemtable()
      modifies this`immutables, this`memtable, this`generation, this`wals, this`base, this`ckpt
      ensures immutables == old(immutables) + [Frozen(old(memtable), old(generation))]
      ensures memtable == map[] && generation == old(generation) + 1
      ensures wals == old(wals)[generation := Wal([], 0)]
      ensures base == |hist| && ckpt == 0
    {
      immutables := immutables + [Frozen(memtable, generation)];
      memtable := map[];
      generation := generation + 1;
      wals := wals[generation := Wal([], 0)];
      base, ckpt := |hist|, 0;
    }

    method RotateNow()
      modifies this`immutables, this`memtable, this`generation, this`wals, this`base, this`ckpt
      ensures View() == Rotate(old(View()))
    {
      FreezeMemtable();
    }

    method RotateIfNeeded()
      requires generation in wals
      modifies this
      ensures View() == if |old(memtable)| < THRESHOLD then old(View())
                        else Rotate(DoReachDevice(old(View()), |old(wals)[old(generation)].records|))
    {
      hide Rotate, DoReachDevice;
      if |memtable| < THRESHOLD {
        return;
      }
      SyncWal();
      RotateNow();
    }

    /** put_locked and remove_locked; the result is the segment to commit. */
    method WriteLocked(w: Write) returns (target: nat)
      requires generation in wals
      modifies this
      ensures View() == DoWrite(old(View()), w)
      ensures target == old(generation)
    {
      target := generation;
      WriteIsAppendSyncRotate(View(), w);
      hide DoWrite;
      AppendToWal(w);
      hide Append;
      RotateIfNeeded();
    }

    // ---- Reading -----------------------------------------------------------------------------------

    /** Newest level to oldest; the first that knows the key decides. */
    method GetLocked(k: Key) returns (r: Option<Item>)
      ensures r == LsmStates.GetLocked(View().phase.e, k)
      ensures Valid() ==> r == Find(Store(), k)
    {
      hide Live, Spec, Find, Lookup, LsmStates.GetLocked, FrozenLayers, SstLayers;
      FoundWhenLive(View(), k);
      LookupMemtable(View().phase.e, k);
      LookupEnds(immutables, sstables, k);
      ghost var want := LsmStates.GetLocked(View().phase.e, k);
      if k in memtable {
        return EntryValue(memtable[k]);
      }
      var i := |immutables|;
      while i > 0
        invariant 0 <= i <= |immutables|
        invariant want == Lookup(FrozenLayers(immutables[..i]) + SstLayers(sstables), k)
      {
        i := i - 1;
        LookupFrozen(immutables, i, SstLayers(sstables), k);
        if k in immutables[i].table {
          return EntryValue(immutables[i].table[k]);
        }
      }
      var j := 0;
      while j < |sstables|
        invariant 0 <= j <= |sstables|
        invariant want == Lookup(SstLayers(sstables[j..]), k)
      {
        LookupSst(sstables, j, k);
        if k in sstables[j].entries {
          return EntryValue(sstables[j].entries[k]);
        }
        j := j + 1;
      }
      return None;
    }

    /** Read, decide and write in one critical section. */
    method Mutate(k: Key, mutator: Option<Item> -> Mutation) returns (outcome: Outcome)
      requires Valid()
      modifies this
      ensures outcome.previous == Find(old(Store()), k)
      ensures var ws := WritesOf(k, mutator(Find(old(Store()), k)));
              && hist == old(hist) + ws && (outcome.applied <==> ws != [])
              && (if ValidKey(k) || ws == [] then Valid() && Store() == Spec(old(Store()), ws)
                  else AnswersAs(old(View())))
    {
      hide Live, Spec, Find, ValidKey, ValidKeys, AnswersAs;
      var current := GetLocked(k);
      var m := mutator(current);
      outcome := Outcome(!m.NoWrite?, current);
      NoMoreSpec(Store(), hist);
      match m {
        case NoWrite =>
        case PutItem(item) =>
          OneSpec(Store(), Write.Put(k, item));
          WriteOne(Write.Put(k, item));
        case DeleteItem =>
          OneSpec(Store(), Del(k));
          WriteOne(Del(k));
      }
    }

    /** The snapshots a scan takes under the shared lock. */
    method Snapshots() returns (tables: seq<seq<Row>>)
      ensures tables == RowsOfAll(EngineLayers(View().phase.e))
    {
      hide RowsOf;
      tables := [RowsOf(memtable)];
      var i := |immutables|;
      assert immutables[..i] == immutables;
      while i > 0
        invariant 0 <= i <= |immutables|
        invariant tables + RowsOfAll(FrozenLayers(immutables[..i])) == RowsOfAll([memtable] + FrozenLayers(immutables))
      {
        i := i - 1;
        FrozenLayersLast(immutables, i);
        RowsOfOneMore(immutables[i].table, FrozenLayers(immutables[..i]), tables);
        tables := tables + [RowsOf(immutables[i].table)];
      }
      assert immutables[..0] == [];
      assert tables == RowsOfAll([memtable] + FrozenLayers(immutables));
      assert tables + RowsOfAll(SstLayers(sstables))
          == RowsOfAll([memtable] + FrozenLayers(immutables) + SstLayers(sstables));
      hide FrozenLayers;
      var j := 0;
      assert sstables[0..] == sstables;
      while j < |sstables|
        invariant 0 <= j <= |sstables|
        invariant tables + RowsOfAll(SstLayers(sstables[j..]))
                  == RowsOfAll([memtable] + FrozenLayers(immutables) + SstLayers(sstables))
      {
        assert sstables[j..][0] == sstables[j] && sstables[j..][1..] == sstables[j + 1..];
        RowsOfOneMore(sstables[j].entries, SstLayers(sstables[j + 1..]), tables);
        tables := tables + [RowsOf(sstables[j].entries)];
        j := j + 1;
      }
    }

    /** One page over internal keys; scan is the case without conditions. */
    method ReadLocked(prefix: ByteString, start: Option<Key>, forward: bool, conditions: Item, limit: nat,
        size: Item -> Size)
      returns (page: Page)
      requires Valid()
      ensures page == PageOf(Filter(Offered(View().phase.e, prefix, start, forward), conditions, false), limit, size)
      ensures StartFits(prefix, start, forward) ==>
                page == PageOf(Answer(Store(), prefix, start, forward, conditions, false), limit, size)
    {
      hide Live, PageOf, Filter, Merge, LiveRows, Contributions, StartFits, Listed;
      var tables := Snapshots();
      LayersAreContents(View());
      RowsOfAllAre(EngineLayers(View().phase.e));
      if StartFits(prefix, start, forward) {
        LayersAnswer(EngineLayers(View().phase.e), prefix, start, forward);
      }
      page := ReadPage(tables, prefix, start, forward, conditions, limit, size);
    }

    // ---- Dropping a table --------------------------------------------------------------------------

    /** Every get is answered as it was in the other state. */
    ghost predicate AnswersAs(s: State)
      requires IsRunning(s)
      reads this
    {
      forall k: Key :: LsmStates.GetLocked(View().phase.e, k) == LsmStates.GetLocked(s.phase.e, k)
    }

    /** A locked write and its effect on the plain map; the memtable ignores a key that is empty or very long. */
    method WriteOne(w: Write)
      requires Valid()
      modifies this
      ensures hist == old(hist) + [w]
      ensures if ValidKey(w.key) then Valid() && Store() == ApplyWrite(old(Store()), w) else AnswersAs(old(View()))
    {
      hide Live, Spec, DoWrite, LsmStates.GetLocked, ValidKeys;
      ActiveWhenLive(View());
      HistoryGrows(View(), w);
      if ValidKey(w.key) {
        WriteKeeps(View(), w);
        OneMoreSpec(hist, w);
        RoomAfterWrite(View(), w);
        OneMoreValid(hist, w);
      } else {
        forall k: Key
          ensures LsmStates.GetLocked(DoWrite(View(), w).phase.e, k) == LsmStates.GetLocked(View().phase.e, k)
        {
          WriteIsSeen(View(), w, k);
        }
      }
      var target := WriteLocked(w);
    }

    method RemoveKeys(keys: seq<Key>)
      requires Valid() && forall i | 0 <= i < |keys| :: ValidKey(keys[i])
      modifies this
      ensures Valid() && Store() == old(Store()) - KeySet(keys)
    {
      hide Valid, Spec, KeySet, ValidKey;
      ghost var before := Store();
      var i := 0;
      NoKeys(before, keys);
      while i < |keys|
        invariant 0 <= i <= |keys| && Valid()
        invariant Store() == before - KeySet(keys[..i])
      {
        OneMoreKey(before, keys, i);
        WriteOne(Del(keys[i]));
        i := i + 1;
      }
      assert keys[..i] == keys;
    }

    /** The next keys of a prefix, at most one memtable's worth. */
    method NextBatch(prefix: ByteString, cursor: Option<Key>) returns (keys: seq<Key>)
      requires Valid() && StartFits(prefix, cursor, true)
      ensures keys == KeysOf(AtMost(Listed(Store(), prefix, cursor, true), THRESHOLD))
    {
      hide Live, Spec, Listed, StartFits, Merge, LiveRows, Contributions;
      var tables := Snapshots();
      LayersAreContents(View());
      RowsOfAllAre(EngineLayers(View().phase.e));
      LayersAnswer(EngineLayers(View().phase.e), prefix, cursor, true);
      keys := FirstKeys(tables, prefix, cursor, THRESHOLD);
    }

    lemma StoreKeysValid()
      requires Valid()
      ensures forall k | k in Store() :: ValidKey(k)
    {
      hide Live, Spec, ValidKeys, ValidKey;
      StoreValid(hist);
    }

    /** Batches of keys until the prefix is empty; other keys keep their values. */
    method DropTable(prefix: ByteString)
      requires Valid()
      modifies this
      ensures Valid()
      ensures Store() == map k | k in old(Store()) && !HasPrefix(k, prefix) :: old(Store())[k]
    {
      hide Valid, Spec, Listed, InScope, HasPrefix, StartFits, Undropped, KeySet, ValidKey;
      ghost var s0 := Store();
      var cursor: Option<Key> := None;
      NoCursor(s0, prefix);
      while true
        invariant Valid() && StartFits(prefix, cursor, true)
        invariant Store() == Undropped(s0, prefix, cursor)
        decreases |Listed(Store(), prefix, cursor, true)|
      {
        ghost var s := Store();
        var keys := NextBatch(prefix, cursor);
        if keys == [] {
          NothingListed(s0, s, prefix, cursor);
          return;
        }
        AtMostIsPrefix(Listed(s, prefix, cursor, true), THRESHOLD);
        BatchDropped(s0, s, prefix, cursor, |keys|);
        BatchLeft(s, s - KeySet(keys), prefix, cursor, |keys|);
        StoreKeysValid();
        BatchValid(s, prefix, cursor, |keys|);
        cursor := Some(keys[|keys| - 1]);
        RemoveKeys(keys);
      }
    }

    // ---- The storage interface ---------------------------------------------------------------------

    method Put(table: ByteString, key: Key, item: Item)
      requires Valid()
      modifies this
      ensures if ValidKey(InternalKey(table, key))
              then Valid() && Store() == StoreOp(old(Store()), PutOp(table, key, item))
              else AnswersAs(old(View()))
    {
      hide Live, Spec, InternalKey, ValidKey, ValidKeys, AnswersAs;
      WriteOne(Write.Put(InternalKey(table, key), item));
    }

    method Remove(table: ByteString, key: Key)
      requires Valid()
      modifies this
      ensures if ValidKey(InternalKey(table, key))
              then Valid() && Store() == StoreOp(old(Store()), RemoveOp(table, key))
              else AnswersAs(old(View()))
    {
      hide Live, Spec, InternalKey, ValidKey, ValidKeys, AnswersAs;
      WriteOne(Del(InternalKey(table, key)));
    }

    method Get(table: ByteString, key: Key) returns (r: Option<Item>)
      requires Valid()
      ensures r == Find(TableOf(Store(), table), key)
    {
      hide Live, Spec, InternalKey, TableOf;
      TableOfAt(Store(), table);
      r := GetLocked(InternalKey(table, key));
    }

    method Drop(table: ByteString)
      requires Valid()
      modifies this
      ensures Valid() && Store() == StoreOp(old(Store()), DropOp(table))
    {
      hide Valid, Spec;
      DropTable(TablePrefix(table));
    }

    method Scan(table: ByteString, start: Option<Key>, limit: nat, size: Item -> Size) returns (page: Page)
      requires Valid()
      ensures page == PageOf(Listed(TableOf(Store(), table), [], start, true), limit, size)
      ensures PageSelects(page, TableOf(Store(), table), [], start, true, map[], false, limit, size)
    {
      hide Valid, Spec, PageOf, Listed, TableOf, PageSelects;
      page := Query(table, map[], start, limit, None, true, size);
      FitsEverywhere(start);
      NoConditions(Listed(TableOf(Store(), table), [], start, true), false);
    }

    /** The last key is cut back to the table's own key. */
    method Query(table: ByteString, conditions: Item, start: Option<Key>, limit: nat, prefix: Option<ByteString>,
                 forward: bool, size: Item -> Size) returns (page: Page)
      requires Valid()
      ensures var p, kp := TablePrefix(table), if prefix.Some? then prefix.value else [];
              var rows := Offered(View().phase.e, p + kp, Shift(p, start), forward);
              page == CutBack(p, PageOf(Filter(rows, conditions, false), limit, size))
      ensures var kp := if prefix.Some? then prefix.value else [];
              StartFits(kp, start, forward) ==>
                && page == PageOf(Answer(TableOf(Store(), table), kp, start, forward, conditions, false), limit, size)
                && PageSelects(page, TableOf(Store(), table), kp, start, forward, conditions, false, limit, size)
    {
      hide Valid, Spec, PageOf, Answer, TableOf, StartFits, Offered, Filter, PageSelects;
      var p := TablePrefix(table);
      var kp := if prefix.Some? then prefix.value else [];
      StartFitsShifts(table, kp, start, forward);
      TablePage(Store(), table, kp, start, forward, conditions, false, limit, size);
      AnswerPage(TableOf(Store(), table), kp, start, forward, conditions, false, limit, size);
      page := ReadLocked(p + kp, Shift(p, start), forward, conditions, limit, size);
      page := CutBack(p, page);
    }

    // ---- Publishing --------------------------------------------------------------------------------

    /** Flush's last critical section, field by field. */
    method InstallFlush()
      requires flush.FlushWritten? && immutables != []
      modifies this`manifest, this`saved, this`sstables, this`immutables, this`flush
      ensures manifest == saved == AddFile(old(manifest), 0, Meta(old(flush).sst.path, 0, old(flush).number))
      ensures sstables == [old(flush).sst] + old(sstables) && immutables == old(immutables)[1..]
      ensures flush == FlushPublished(old(flush).f.gen)
    {
      hide AddFile;
      manifest := AddFile(manifest, 0, Meta(flush.sst.path, 0, flush.number));
      saved := manifest;
      sstables := [flush.sst] + sstables;
      immutables := immutables[1..];
      flush := FlushPublished(flush.f.gen);
    }

    method PublishFlush()
      requires flush.FlushWritten? && immutables != []
      modifies this`manifest, this`saved, this`sstables, this`immutables, this`flush
      ensures View() == DoFlushPublish(old(View()))
      ensures old(Valid()) ==> Valid() && Store() == old(Store())
    {
      hide AddFile, Live, Spec;
      if Valid() {
        FlushPublishKeeps(View());
      }
      InstallFlush();
    }

    /** Compaction's last critical section, field by field. */
    method InstallCompaction()
      requires compaction.CompactWritten?
      modifies this`manifest, this`saved, this`sstables, this`compaction
      ensures var c := old(compaction);
              && manifest == saved == AddFile(RemoveAll(old(manifest), c.metas), 1, OutputMeta(c.metas, c.sst))
              && sstables == Splice(old(sstables), PathsOf(c.metas), c.sst, false)
              && compaction == CompactPublished(PathsOf(c.metas))
    {
      hide AddFile, RemoveAll, OutputMeta, PathsOf, Splice;
      var c := compaction;
      manifest := AddFile(RemoveAll(manifest, c.metas), 1, OutputMeta(c.metas, c.sst));
      saved := manifest;
      sstables := ReplaceFiles(sstables, PathsOf(c.metas), c.sst);
      compaction := CompactPublished(PathsOf(c.metas));
    }

    method PublishCompaction()
      requires compaction.CompactWritten?
      modifies this`manifest, this`saved, this`sstables, this`compaction
      ensures View() == DoCompactPublish(old(View()))
      ensures old(Valid()) ==> Valid() && Store() == old(Store())
    {
      hide AddFile, RemoveAll, OutputMeta, PathsOf, Splice, Live, Spec;
      if Valid() {
        CompactPublishKeeps(View());
      }
      InstallCompaction();
    }
  }
}
