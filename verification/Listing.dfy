/**
 What a scan of the layered tables is: the live keys in scope, each once, in scan order, with the item the
 newest layer gives it.
 */
module Listings {
  import opened Bytes
  import opened Layers
  import opened KWayMerge
  import opened MergedReaders
  import opened SortedKeys

  ghost predicate SortedPairs(out: seq<Pair>, forward: bool) {
    forall i, j | 0 <= i < j < |out| :: Ahead(out[i].key, out[j].key, forward)
  }

  /** `out` is the store's content in scope, in scan order. */
  ghost predicate Listing(out: seq<Pair>, store: Store, prefix: ByteString, start: Option<Key>, forward: bool) {
    && SortedPairs(out, forward)
    && (forall p :: p in out <==> p.key in store && store[p.key] == p.item && InScope(p.key, prefix, start, forward))
  }

  lemma SameHead(a: seq<Pair>, b: seq<Pair>, forward: bool)
    requires SortedPairs(a, forward) && SortedPairs(b, forward)
    requires forall p :: p in a <==> p in b
    ensures a == [] <==> b == []
    ensures a != [] ==> a[0] == b[0]
  {
    AheadLaws(forward);
    if a != [] {
      assert a[0] in b;
    }
    if b != [] {
      assert b[0] in a;
    }
  }

  lemma {:induction false} SortedPairsUnique(a: seq<Pair>, b: seq<Pair>, forward: bool)
    requires SortedPairs(a, forward) && SortedPairs(b, forward)
    requires forall p :: p in a <==> p in b
    ensures a == b
  {
    SameHead(a, b, forward);
    if a != [] {
      forall p ensures p in a[1..] <==> p in b[1..] {
        TailMembers(a, p, forward);
        TailMembers(b, p, forward);
      }
      SortedPairsUnique(a[1..], b[1..], forward);
      assert a == [a[0]] + a[1..] && b == [b[0]] + b[1..];
    }
  }

  lemma TailMembers(a: seq<Pair>, p: Pair, forward: bool)
    requires SortedPairs(a, forward) && a != []
    ensures p in a[1..] <==> p in a && p != a[0]
  {
    AheadLaws(forward);
    assert a == [a[0]] + a[1..];
  }

  /** A store has one listing. */
  lemma ListingUnique(a: seq<Pair>, b: seq<Pair>, store: Store, prefix: ByteString, start: Option<Key>, forward: bool)
    requires Listing(a, store, prefix, start, forward) && Listing(b, store, prefix, start, forward)
    ensures a == b
  {
    SortedPairsUnique(a, b, forward);
  }

  function Reversed(ks: seq<ByteString>): (r: seq<ByteString>)
    ensures |r| == |ks| && forall i | 0 <= i < |r| :: r[i] == ks[|ks| - 1 - i]
  {
    seq(|ks|, i requires 0 <= i < |ks| => ks[|ks| - 1 - i])
  }

  function PairsOf(ks: seq<Key>, store: Store): (r: seq<Pair>)
    requires forall i | 0 <= i < |ks| :: ks[i] in store
    ensures |r| == |ks| && forall i | 0 <= i < |r| :: r[i] == Pair(ks[i], store[ks[i]])
  {
    seq(|ks|, i requires 0 <= i < |ks| => Pair(ks[i], store[ks[i]]))
  }

  function KeysInScope(store: Store, prefix: ByteString, start: Option<Key>, forward: bool): (r: seq<Key>)
    ensures forall i | 0 <= i < |r| :: r[i] in store
  {
    var ks := set k | k in store && InScope(k, prefix, start, forward);
    SortedEnumerates(ks);
    assert forall i | 0 <= i < |Sorted(ks)| :: Sorted(ks)[i] in Sorted(ks);
    if forward then Sorted(ks) else Reversed(Sorted(ks))
  }

  /** The listing of a store. */
  function Listed(store: Store, prefix: ByteString, start: Option<Key>, forward: bool): (r: seq<Pair>) {
    PairsOf(KeysInScope(store, prefix, start, forward), store)
  }

  lemma ReversedKeys(ks: seq<Key>)
    ensures forall k :: k in Reversed(ks) <==> k in ks
  {
    forall k | k in ks ensures k in Reversed(ks) {
      var i :| 0 <= i < |ks| && ks[i] == k;
      assert Reversed(ks)[|ks| - 1 - i] == k;
    }
  }

  lemma KeysInScopeAre(store: Store, prefix: ByteString, start: Option<Key>, forward: bool)
    ensures var ks := KeysInScope(store, prefix, start, forward);
            && (forall i, j | 0 <= i < j < |ks| :: Ahead(ks[i], ks[j], forward))
            && (forall k :: k in ks <==> k in store && InScope(k, prefix, start, forward))
  {
    hide InScope;
    var ks := set k | k in store && InScope(k, prefix, start, forward);
    SortedEnumerates(ks);
    ReversedKeys(Sorted(ks));
  }

  lemma ListedIsListing(store: Store, prefix: ByteString, start: Option<Key>, forward: bool)
    ensures Listing(Listed(store, prefix, start, forward), store, prefix, start, forward)
  {
    hide InScope, KeysInScope;
    KeysInScopeAre(store, prefix, start, forward);
    var ks, out := KeysInScope(store, prefix, start, forward), Listed(store, prefix, start, forward);
    assert forall i | 0 <= i < |out| :: out[i].key == ks[i] && out[i].item == store[ks[i]];
    forall p: Pair | p.key in store && store[p.key] == p.item
        && InScope(p.key, prefix, start, forward) ensures p in out {
      var i :| 0 <= i < |ks| && ks[i] == p.key;
      assert out[i] == p;
    }
  }

  // ---- The merge lists the store -------------------------------------------------------------------

  ghost function Restrict(l: Layer, prefix: ByteString, start: Option<Key>, forward: bool): (r: Layer) {
    map k | k in l && InScope(k, prefix, start, forward) :: l[k]
  }

  lemma RestrictMerge(a: Layer, b: Layer, prefix: ByteString, start: Option<Key>, forward: bool)
    ensures Restrict(a + b, prefix, start, forward)
            == Restrict(a, prefix, start, forward) + Restrict(b, prefix, start, forward)
  {
  }

  lemma {:induction false} StackRestrict(a: seq<Layer>, b: seq<Layer>, prefix: ByteString, start: Option<Key>,
      forward: bool)
    requires |a| == |b| && forall i | 0 <= i < |a| :: b[i] == Restrict(a[i], prefix, start, forward)
    ensures Stack(b) == Restrict(Stack(a), prefix, start, forward)
  {
    if a != [] {
      StackRestrict(a[1..], b[1..], prefix, start, forward);
      RestrictMerge(Stack(a[1..]), a[0], prefix, start, forward);
    } else {
      assert Stack(b) == map[];
    }
  }

  lemma ContributionOrdered(rows: seq<Row>, prefix: ByteString, start: Option<Key>, forward: bool)
    requires Ordered(rows, true)
    ensures Ordered(Contribution(rows, prefix, start, forward), forward)
    ensures forall i | 0 <= i < |Contribution(rows, prefix, start, forward)| ::
            Contribution(rows, prefix, start, forward)[i] in rows
  {
    var c := InitialCursor(rows, prefix, start, forward);
    InitialSound(rows, prefix, start, forward);
    RestOrdered(c, prefix, forward);
    RestIsStretch(c, prefix, forward);
  }

  lemma ContributionRestricts(rows: seq<Row>, prefix: ByteString, start: Option<Key>, forward: bool)
    requires Ordered(rows, true) && StartFits(prefix, start, forward)
    ensures RowsLayer(Contribution(rows, prefix, start, forward)) == Restrict(RowsLayer(rows), prefix, start, forward)
  {
    hide Contribution, InScope, StartFits, RowsLayer, Ordered;
    var part := Contribution(rows, prefix, start, forward);
    forall k | k in RowsLayer(part)
      ensures k in RowsLayer(rows) && InScope(k, prefix, start, forward) && RowsLayer(rows)[k] == RowsLayer(part)[k]
    {
      ContributedKey(rows, prefix, start, forward, k);
    }
    forall k | k in RowsLayer(rows) && InScope(k, prefix, start, forward) ensures k in RowsLayer(part) {
      ScopedKey(rows, prefix, start, forward, k);
    }
  }

  lemma ContributedKey(rows: seq<Row>, prefix: ByteString, start: Option<Key>, forward: bool, k: Key)
    requires Ordered(rows, true) && StartFits(prefix, start, forward)
    requires k in RowsLayer(Contribution(rows, prefix, start, forward))
    ensures k in RowsLayer(rows) && InScope(k, prefix, start, forward)
    ensures RowsLayer(rows)[k] == RowsLayer(Contribution(rows, prefix, start, forward))[k]
  {
    hide Contribution, InScope, StartFits, RowsLayer, Ordered;
    var part := Contribution(rows, prefix, start, forward);
    ContributionOrdered(rows, prefix, start, forward);
    RowsLayerKeys(part);
    var j :| 0 <= j < |part| && part[j].key == k;
    var i :| 0 <= i < |rows| && rows[i] == part[j];
    RowsLayerAt(part, forward, j);
    RowsLayerAt(rows, true, i);
    ContributesScope(rows, prefix, start, forward, i);
  }

  lemma ScopedKey(rows: seq<Row>, prefix: ByteString, start: Option<Key>, forward: bool, k: Key)
    requires Ordered(rows, true) && StartFits(prefix, start, forward)
    requires k in RowsLayer(rows) && InScope(k, prefix, start, forward)
    ensures k in RowsLayer(Contribution(rows, prefix, start, forward))
  {
    hide Contribution, InScope, StartFits, RowsLayer, Ordered;
    var part := Contribution(rows, prefix, start, forward);
    RowsLayerKeys(rows);
    RowsLayerKeys(part);
    var i :| 0 <= i < |rows| && rows[i].key == k;
    ContributesScope(rows, prefix, start, forward, i);
    var j :| 0 <= j < |part| && part[j] == rows[i];
  }

  lemma {:induction false} LiveRowsAre(rows: seq<Row>, forward: bool)
    requires Ordered(rows, forward)
    ensures SortedPairs(LiveRows(rows), forward)
    ensures forall p ::
            p in LiveRows(rows) <==> p.key in RowsLayer(rows) && RowsLayer(rows)[p.key] == Entry(p.item, false)
  {
    hide Ahead;
    if rows != [] {
      LiveRowsAre(rows[1..], forward);
      FirstIsAhead(rows, forward);
      var tail := LiveRows(rows[1..]);
      forall i | 0 <= i < |tail| ensures Ahead(rows[0].key, tail[i].key, forward) {
        assert tail[i] in tail;
      }
    }
  }

  lemma FirstIsAhead(rows: seq<Row>, forward: bool)
    requires rows != [] && Ordered(rows, forward)
    ensures Ordered(rows[1..], forward)
    ensures rows[0].key !in RowsLayer(rows[1..])
    ensures forall k | k in RowsLayer(rows[1..]) :: Ahead(rows[0].key, k, forward)
  {
    hide RowsLayer, Ahead;
    AheadLaws(forward);
    RowsLayerKeys(rows[1..]);
    forall k | k in RowsLayer(rows[1..]) ensures Ahead(rows[0].key, k, forward) {
      var j :| 0 <= j < |rows[1..]| && rows[1..][j].key == k;
      assert rows[j + 1].key == k;
    }
  }

  lemma MergeOfContributions(tables: seq<seq<Row>>, prefix: ByteString, start: Option<Key>, forward: bool)
    requires forall i | 0 <= i < |tables| :: Ordered(tables[i], true)
    requires StartFits(prefix, start, forward)
    ensures var merged := Merge(Contributions(tables, prefix, start, forward), forward);
            && Ordered(merged, forward)
            && RowsLayer(merged) == Restrict(Stack(RowsLayers(tables)), prefix, start, forward)
  {
    hide Contribution, StartFits, Merge;
    var parts := Contributions(tables, prefix, start, forward);
    forall i | 0 <= i < |parts|
      ensures Ordered(parts[i], forward) && RowsLayer(parts[i])
              == Restrict(RowsLayer(tables[i]), prefix, start, forward)
    {
      ContributionOrdered(tables[i], prefix, start, forward);
      ContributionRestricts(tables[i], prefix, start, forward);
    }
    MergeIsStack(parts, forward);
    RowsLayersAt(parts);
    RowsLayersAt(tables);
    StackRestrict(RowsLayers(tables), RowsLayers(parts), prefix, start, forward);
  }

  /** A scan lists exactly the live content of the stacked tables. */
  lemma ScanLists(tables: seq<seq<Row>>, prefix: ByteString, start: Option<Key>, forward: bool)
    requires forall i | 0 <= i < |tables| :: Ordered(tables[i], true)
    requires StartFits(prefix, start, forward)
    ensures Listing(LiveRows(Merge(Contributions(tables, prefix, start, forward), forward)),
                    Apply(map[], Stack(RowsLayers(tables))), prefix, start, forward)
  {
    hide InScope, StartFits, Merge, Contributions, LiveRows;
    MergeOfContributions(tables, prefix, start, forward);
    LiveRowsAre(Merge(Contributions(tables, prefix, start, forward), forward), forward);
  }

  /** The start key must fit: otherwise some table's scan misses a key in scope. */
  lemma ScanListsIffStartFits(prefix: ByteString, start: Option<Key>, forward: bool)
    ensures StartFits(prefix, start, forward)
       <==> forall rows | Ordered(rows, true) ::
              Listing(LiveRows(Merge(Contributions([rows], prefix, start, forward), forward)),
                      Apply(map[], RowsLayer(rows)), prefix, start, forward)
  {
    if StartFits(prefix, start, forward) {
      forall rows | Ordered(rows, true)
        ensures Listing(LiveRows(Merge(Contributions([rows], prefix, start, forward), forward)),
                      Apply(map[], RowsLayer(rows)), prefix, start, forward)
      {
        ScanLists([rows], prefix, start, forward);
        RowsLayersAt([rows]);
        assert RowsLayers([rows]) == [RowsLayer(rows)];
        StackOne(RowsLayer(rows));
      }
    } else {
      MissedKey(prefix, start.value, forward);
    }
  }

  lemma MissedKey(prefix: ByteString, start: Key, forward: bool)
    requires !StartFits(prefix, Some(start), forward)
    ensures exists rows ::
              && Ordered(rows, true)
              && !Listing(LiveRows(Merge(Contributions([rows], prefix, Some(start), forward), forward)),
                          Apply(map[], RowsLayer(rows)), prefix, Some(start), forward)
  {
    var e := Entry(map[], false);
    var rows, i := MisfitLoses(prefix, start, forward, e);
    hide StartFits, InScope, Contribution;
    var parts := Contributions([rows], prefix, Some(start), forward);
    assert Winner(parts, 1, forward).None?;
    RowsLayerAt(rows, true, i);
    var store := Apply(map[], RowsLayer(rows));
    var missed := Pair(rows[i].key, rows[i].entry.item);
    assert missed.key in store && store[missed.key] == missed.item;
    assert missed !in LiveRows(Merge(parts, forward));
  }
}
