/**
 The read loops of both engines (LsmEngine::scan / query over a MergedReader, MemoryEngine::scan / query over
 one sorted map) return the same page of the same listing.
 */
module EngineReads {
  import opened Bytes
  import opened Values
  import opened Layers
  import opened KWayMerge
  import opened MergedReaders
  import opened Snapshots
  import opened Listings
  import opened Paging

  lemma FilterHead(p: Pair, rest: seq<Pair>, conditions: Item, binary: bool)
    ensures Filter([p] + rest, conditions, binary)
         == if Matches(p.item, conditions, binary) then [p] + Filter(rest, conditions, binary)
             else Filter(rest, conditions, binary)
  {
    assert ([p] + rest)[1..] == rest;
    assert [] + Filter(rest, conditions, binary) == Filter(rest, conditions, binary);
  }

  lemma FillHead(p: Pair, rest: seq<Pair>, limit: nat, size: Item -> Size, items: seq<Item>, bytes: Size,
      last: Option<Key>)
    ensures Fill([p] + rest, limit, size, items, bytes, last)
         == if Fits(|items|, bytes, size(p.item), limit)
            then Fill(rest, limit, size, items + [p.item], SaturatingAdd(bytes, size(p.item)), Some(p.key))
            else Page(items, last)
  {
    assert ([p] + rest)[1..] == rest;
  }

  /** The paging loop over a reader: what it returns is the page of what the reader still had to offer. */
  method ReadPage(tables: seq<seq<Row>>, prefix: ByteString, start: Option<Key>, forward: bool, conditions: Item,
                  limit: nat, size: Item -> Size) returns (page: Page)
    requires forall i | 0 <= i < |tables| :: Ordered(tables[i], true)
    ensures page == PageOf(Filter(LiveRows(Merge(Contributions(tables, prefix, start, forward), forward)), conditions,
                           false), limit, size)
  {
    hide Merge, LiveRows, Rests, Contributions, SoundSources, SortedHeap, HeapHolds, Filter, Fill, Fits, Matches;
    var reader := new MergedReader(tables, prefix, start, forward);
    var items: seq<Item>, bytes: Size, last: Option<Key> := [], 0, None;
    while true
      invariant reader.Valid() && reader.forward == forward && fresh(reader)
      invariant Fill(Filter(LiveRows(Merge(reader.Remaining(), forward)), conditions, false), limit, size, items,
                bytes, last)
             == PageOf(Filter(LiveRows(Merge(Contributions(tables, prefix, start, forward), forward)), conditions,
                 false), limit, size)
      decreases Total(reader.Remaining())
    {
      var row := reader.Next();
      if row.None? {
        NothingToFill(limit, size, items, bytes, last, conditions);
        return Page(items, None);
      }
      ghost var rest := LiveRows(Merge(reader.Remaining(), forward));
      FilterHead(row.value, rest, conditions, false);
      if Matches(row.value.item, conditions, false) {
        FillHead(row.value, Filter(rest, conditions, false), limit, size, items, bytes, last);
        if !Fits(|items|, bytes, size(row.value.item), limit) {
          return Page(items, last);
        }
        bytes := SaturatingAdd(bytes, size(row.value.item));
        last := Some(row.value.key);
        items := items + [row.value.item];
      }
    }
  }

  lemma NothingToFill(limit: nat, size: Item -> Size, items: seq<Item>, bytes: Size, last: Option<Key>,
      conditions: Item)
    ensures forall binary :: Fill(Filter([], conditions, binary), limit, size, items, bytes, last) == Page(items, None)
  {
  }

  function KeysOf(rows: seq<Pair>): (r: seq<Key>)
    ensures |r| == |rows| && forall i | 0 <= i < |r| :: r[i] == rows[i].key
  {
    seq(|rows|, i requires 0 <= i < |rows| => rows[i].key)
  }

  function AtMost<T>(rows: seq<T>, cap: nat): (r: seq<T>) {
    if |rows| < cap then rows else rows[..cap]
  }

  /** drop_table's batch: the first keys the reader offers. */
  method FirstKeys(tables: seq<seq<Row>>, prefix: ByteString, start: Option<Key>, cap: nat) returns (keys: seq<Key>)
    requires forall i | 0 <= i < |tables| :: Ordered(tables[i], true)
    ensures keys == KeysOf(AtMost(LiveRows(Merge(Contributions(tables, prefix, start, true), true)), cap))
  {
    hide Merge, LiveRows, Rests, Contributions, SoundSources, SortedHeap, HeapHolds;
    var reader := new MergedReader(tables, prefix, start, true);
    keys := [];
    ghost var all := LiveRows(Merge(reader.Remaining(), true));
    ghost var n := 0;
    while |keys| < cap
      invariant reader.Valid() && reader.forward && fresh(reader)
      invariant n == |keys| <= cap && n <= |all| && keys == KeysOf(all[..n])
      invariant all[n..] == LiveRows(Merge(reader.Remaining(), true))
      decreases Total(reader.Remaining())
    {
      var row := reader.Next();
      if row.None? {
        assert all[..n] == all;
        return;
      }
      TakeNext(all, n, row.value, LiveRows(Merge(reader.Remaining(), true)));
      keys := keys + [row.value.key];
      n := n + 1;
    }
  }

  lemma TakeNext(all: seq<Pair>, n: nat, p: Pair, rest: seq<Pair>)
    requires n <= |all| && all[n..] == [p] + rest
    ensures n < |all| && all[n] == p && all[n + 1..] == rest
    ensures KeysOf(all[..n + 1]) == KeysOf(all[..n]) + [p.key]
  {
    assert all[n..][0] == p && all[n..][1..] == rest && all[n..][1..] == all[n + 1..];
  }

  // ---- Compaction's merge --------------------------------------------------------------------------

  /** What the merge writes: tombstones go only when the inputs are all there is. */
  function Kept(rows: seq<Row>, complete: bool): (r: seq<Row>) {
    if rows == [] then []
    else (if rows[0].entry.deleted && complete then [] else [rows[0]]) + Kept(rows[1..], complete)
  }

  lemma {:induction false} WholeRest(rows: seq<Row>, p: nat)
    requires p <= |rows|
    ensures Rest(Cursor(rows, p, p < |rows|), [], true) == rows[p..]
    decreases |rows| - p
  {
    if p < |rows| {
      WholeRest(rows, p + 1);
      assert HasPrefix(rows[p].key, []);
      assert rows[p..] == [rows[p]] + rows[p + 1..];
    }
  }

  lemma WholeContributions(tables: seq<seq<Row>>)
    ensures Contributions(tables, [], None, true) == tables
  {
    forall i | 0 <= i < |tables| ensures Contribution(tables[i], [], None, true) == tables[i] {
      assert LowerBound(tables[i], []) == 0;
      WholeRest(tables[i], 0);
    }
  }

  lemma {:induction false} KeptOrdered(rows: seq<Row>, complete: bool)
    requires Ordered(rows, true)
    ensures Ordered(Kept(rows, complete), true)
    ensures forall x | x in Kept(rows, complete) :: x in rows
  {
    if rows != [] {
      KeptOrdered(rows[1..], complete);
      var tail := Kept(rows[1..], complete);
      forall i | 0 <= i < |tail| ensures Ahead(rows[0].key, tail[i].key, true) {
        assert tail[i] in rows[1..];
      }
    }
  }

  lemma PurgeUpdate(l: Layer, k: Key, e: Entry)
    requires k !in l
    ensures Purge(l[k := e]) == if e.deleted then Purge(l) else Purge(l)[k := e]
  {
  }

  lemma HeadKeyOnce(rows: seq<Row>)
    requires rows != [] && Ordered(rows, true)
    ensures rows[0].key !in RowsLayer(rows[1..])
  {
    RowsLayerKeys(rows[1..]);
    AheadLaws(true);
  }

  lemma {:induction false} KeptIsPurge(rows: seq<Row>, complete: bool)
    requires Ordered(rows, true)
    ensures RowsLayer(Kept(rows, complete)) == if complete then Purge(RowsLayer(rows)) else RowsLayer(rows)
  {
    if rows != [] {
      KeptIsPurge(rows[1..], complete);
      HeadKeyOnce(rows);
      hide Ordered, Purge;
      PurgeUpdate(RowsLayer(rows[1..]), rows[0].key, rows[0].entry);
      if rows[0].entry.deleted && complete {
        assert [] + Kept(rows[1..], complete) == Kept(rows[1..], complete);
      } else {
        assert ([rows[0]] + Kept(rows[1..], complete))[1..] == Kept(rows[1..], complete);
      }
    }
  }

  lemma KeptHead(row: Row, rest: seq<Row>, complete: bool)
    ensures Kept([row] + rest, complete)
         == if row.entry.deleted && complete then Kept(rest, complete) else [row] + Kept(rest, complete)
  {
    assert ([row] + rest)[1..] == rest;
    assert [] + Kept(rest, complete) == Kept(rest, complete);
  }

  method KeptMerge(tables: seq<seq<Row>>, complete: bool) returns (out: seq<Row>)
    requires forall i | 0 <= i < |tables| :: Ordered(tables[i], true)
    ensures out == Kept(Merge(tables, true), complete)
  {
    WholeContributions(tables);
    hide Merge, Kept, Rests, Contributions, SoundSources, SortedHeap, HeapHolds, Ordered;
    var reader := new MergedReader(tables, [], None, true);
    out := [];
    while reader.heap != []
      invariant reader.Valid() && reader.forward && fresh(reader)
      invariant Kept(Merge(tables, true), complete) == out + Kept(Merge(reader.Remaining(), true), complete)
      decreases Total(reader.Remaining())
    {
      var row := reader.Pop();
      KeptHead(row, Merge(reader.Remaining(), true), complete);
      if !row.entry.deleted || !complete {
        out := out + [row];
      }
    }
    EmptyHeap(reader.heap, reader.Remaining(), complete);
  }

  /** compact()'s streaming loop: its output is the stack of its inputs, without tombstones if they are complete. */
  method MergeTables(tables: seq<seq<Row>>, complete: bool) returns (out: seq<Row>)
    requires forall i | 0 <= i < |tables| :: Ordered(tables[i], true)
    ensures Ordered(out, true)
    ensures RowsLayer(out) == var l := Stack(RowsLayers(tables)); if complete then Purge(l) else l
  {
    MergeIsStack(tables, true);
    KeptOrdered(Merge(tables, true), complete);
    KeptIsPurge(Merge(tables, true), complete);
    out := KeptMerge(tables, complete);
  }

  lemma EmptyHeap(heap: seq<Node>, rests: seq<seq<Row>>, complete: bool)
    requires heap == [] && SortedHeap(heap, true) && HeapHolds(heap, rests, {})
    ensures Kept(Merge(rests, true), complete) == []
  {
    TopWins(heap, rests, true);
  }

  // ---- The layered answer --------------------------------------------------------------------------

  /** The page of a layered engine is the page of its plain content. */
  lemma LayersAnswer(layers: seq<Layer>, prefix: ByteString, start: Option<Key>, forward: bool)
    requires StartFits(prefix, start, forward)
    ensures LiveRows(Merge(Contributions(RowsOfAll(layers), prefix, start, forward), forward))
         == Listed(Apply(map[], Stack(layers)), prefix, start, forward)
  {
    hide Merge, LiveRows, Contributions, Listed;
    RowsOfAllAre(layers);
    ScanLists(RowsOfAll(layers), prefix, start, forward);
    ListedIsListing(Apply(map[], Stack(layers)), prefix, start, forward);
    ListingUnique(LiveRows(Merge(Contributions(RowsOfAll(layers), prefix, start, forward), forward)),
                  Listed(Apply(map[], Stack(layers)), prefix, start, forward),
                  Apply(map[], Stack(layers)), prefix, start, forward);
  }
}
