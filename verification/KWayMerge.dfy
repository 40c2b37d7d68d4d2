/**
 The k-way merge that both MergedReader and compact() run: a heap with one cursor per source, popped key by
 key, the source of lowest rank winning each key.
 */
module KWayMerge {
  import opened Bytes
  import opened Layers

  datatype Row = Row(key: Key, entry: Entry)

  /** Strictly before, in the direction of the scan. */
  predicate Ahead(a: Key, b: Key, forward: bool) {
    if forward then Less(a, b) else Less(b, a)
  }

  lemma AheadLaws(forward: bool)
    ensures forall a: Key :: !Ahead(a, a, forward)
    ensures forall a: Key, b: Key :: Ahead(a, b, forward) || a == b || Ahead(b, a, forward)
    ensures forall a: Key, b: Key, c: Key :: Ahead(a, b, forward) && Ahead(b, c, forward) ==> Ahead(a, c, forward)
  {
    OrderLaws();
  }

  ghost predicate Ordered(rows: seq<Row>, forward: bool) {
    forall i, j | 0 <= i < j < |rows| :: Ahead(rows[i].key, rows[j].key, forward)
  }

  ghost predicate AllOrdered(sources: seq<seq<Row>>, forward: bool) {
    forall i | 0 <= i < |sources| :: Ordered(sources[i], forward)
  }

  function RowsLayer(rows: seq<Row>): (l: Layer) {
    if rows == [] then map[] else RowsLayer(rows[1..])[rows[0].key := rows[0].entry]
  }

  function RowsLayers(sources: seq<seq<Row>>): (r: seq<Layer>) {
    if sources == [] then [] else [RowsLayer(sources[0])] + RowsLayers(sources[1..])
  }

  /** The lowest-ranked source, among the first n, whose next key comes first. */
  function Winner(sources: seq<seq<Row>>, n: nat, forward: bool): (w: Option<nat>)
    requires n <= |sources|
    ensures w.Some? ==> w.value < n && sources[w.value] != []
  {
    if n == 0 then None
    else
      var w := Winner(sources, n - 1, forward);
      if sources[n - 1] == [] then w
      else if w.None? || Ahead(sources[n - 1][0].key, sources[w.value][0].key, forward) then Some(n - 1)
      else w
  }

  /** Every source whose next key is k steps past it. */
  function Advance(sources: seq<seq<Row>>, k: Key): (r: seq<seq<Row>>) {
    if sources == [] then []
    else [if sources[0] != [] && sources[0][0].key == k then sources[0][1..] else sources[0]] + Advance(sources[1..], k)
  }

  function Total(sources: seq<seq<Row>>): (n: nat) {
    if sources == [] then 0 else |sources[0]| + Total(sources[1..])
  }

  lemma {:induction false} AdvanceAt(sources: seq<seq<Row>>, k: Key)
    ensures |Advance(sources, k)| == |sources|
    ensures forall i | 0 <= i < |sources| ::
              Advance(sources, k)[i] == if sources[i] != [] && sources[i][0].key == k then sources[i][1..]
                  else sources[i]
  {
    if sources != [] {
      AdvanceAt(sources[1..], k);
    }
  }

  lemma {:induction false} AdvanceShrinks(sources: seq<seq<Row>>, k: Key)
    ensures Total(Advance(sources, k)) <= Total(sources)
    ensures (exists i :: 0 <= i < |sources| && sources[i] != [] && sources[i][0].key == k) ==>
            Total(Advance(sources, k)) < Total(sources)
  {
    if sources != [] {
      AdvanceShrinks(sources[1..], k);
      forall i | 0 <= i < |sources| && sources[i] != [] && sources[i][0].key == k
        ensures Total(Advance(sources, k)) < Total(sources)
      {
        if i > 0 {
          assert sources[1..][i - 1] == sources[i];
        }
      }
    }
  }

  /** The merged rows. */
  function Merge(sources: seq<seq<Row>>, forward: bool): (r: seq<Row>)
    decreases Total(sources)
  {
    var w := Winner(sources, |sources|, forward);
    if w.None? then []
    else
      var row := sources[w.value][0];
      assert Total(Advance(sources, row.key)) < Total(sources) by { AdvanceShrinks(sources, row.key); }
      [row] + Merge(Advance(sources, row.key), forward)
  }

  // ---- What the merge is ---------------------------------------------------------------------------

  lemma {:induction false} WinnerWins(sources: seq<seq<Row>>, n: nat, forward: bool)
    requires n <= |sources|
    ensures var w := Winner(sources, n, forward);
            && (w.None? ==> forall i | 0 <= i < n :: sources[i] == [])
            && (w.Some? ==> forall i | 0 <= i < n && sources[i] != [] ::
                  && !Ahead(sources[i][0].key, sources[w.value][0].key, forward)
                  && (i < w.value ==> sources[i][0].key != sources[w.value][0].key))
  {
    AheadLaws(forward);
    if n > 0 {
      WinnerWins(sources, n - 1, forward);
    }
  }

  lemma {:induction false} RowsLayerKeys(rows: seq<Row>)
    ensures forall i | 0 <= i < |rows| :: rows[i].key in RowsLayer(rows)
    ensures forall k | k in RowsLayer(rows) :: exists i :: 0 <= i < |rows| && rows[i].key == k
  {
    if rows != [] {
      RowsLayerKeys(rows[1..]);
      forall k | k in RowsLayer(rows) ensures exists i :: 0 <= i < |rows| && rows[i].key == k {
        if k == rows[0].key {
        } else {
          var i :| 0 <= i < |rows[1..]| && rows[1..][i].key == k;
          assert rows[i + 1].key == k;
        }
      }
      forall i | 0 <= i < |rows| ensures rows[i].key in RowsLayer(rows) {
        assert i > 0 ==> rows[i] == rows[1..][i - 1];
      }
    }
  }

  lemma {:induction false} RowsLayerAt(rows: seq<Row>, forward: bool, i: nat)
    requires Ordered(rows, forward) && i < |rows|
    ensures rows[i].key in RowsLayer(rows) && RowsLayer(rows)[rows[i].key] == rows[i].entry
  {
    AheadLaws(forward);
    if i > 0 {
      assert rows[1..][i - 1] == rows[i];
      RowsLayerAt(rows[1..], forward, i - 1);
      assert rows[0].key != rows[i].key;
    }
  }

  /** A source loses exactly the key it stepped past. */
  lemma StepLosesKey(rows: seq<Row>, k: Key, forward: bool)
    requires Ordered(rows, forward)
    requires rows != [] ==> !Ahead(rows[0].key, k, forward)
    ensures var rows' := if rows != [] && rows[0].key == k then rows[1..] else rows;
            && Ordered(rows', forward)
            && RowsLayer(rows') == RowsLayer(rows) - {k}
            && (rows' != [] ==> Ahead(k, rows'[0].key, forward))
            && (k in RowsLayer(rows) <==> rows != [] && rows[0].key == k)
  {
    hide Ahead;
    AheadLaws(forward);
    var rows' := if rows != [] && rows[0].key == k then rows[1..] else rows;
    RowsLayerKeys(rows');
    forall i | 0 <= i < |rows'| ensures Ahead(k, rows'[i].key, forward) {
      if rows' == rows {
        assert i > 0 ==> Ahead(rows[0].key, rows[i].key, forward);
      } else {
        assert rows'[i] == rows[i + 1];
      }
    }
    assert k !in RowsLayer(rows');
  }

  lemma {:induction false} RowsLayersAt(sources: seq<seq<Row>>)
    ensures |RowsLayers(sources)| == |sources|
            && forall i | 0 <= i < |sources| :: RowsLayers(sources)[i] == RowsLayer(sources[i])
  {
    if sources != [] {
      RowsLayersAt(sources[1..]);
    }
  }

  /** Dropping one key from every layer drops it from the stack. */
  lemma {:induction false} StackWithout(a: seq<Layer>, b: seq<Layer>, k: Key)
    requires |a| == |b| && forall i | 0 <= i < |a| :: b[i] == a[i] - {k}
    ensures Stack(b) == Stack(a) - {k}
  {
    if a != [] {
      StackWithout(a[1..], b[1..], k);
    }
  }

  lemma {:induction false} StackFirst(a: seq<Layer>, k: Key, w: nat)
    requires w < |a| && k in a[w] && forall i | 0 <= i < w :: k !in a[i]
    ensures k in Stack(a) && Stack(a)[k] == a[w][k]
  {
    if w > 0 {
      StackFirst(a[1..], k, w - 1);
    }
  }

  ghost predicate NotBefore(sources: seq<seq<Row>>, k: Key, forward: bool) {
    forall i | 0 <= i < |sources| && sources[i] != [] :: Ahead(k, sources[i][0].key, forward)
  }

  lemma StepOrders(sources: seq<seq<Row>>, forward: bool, w: nat)
    requires AllOrdered(sources, forward) && Winner(sources, |sources|, forward) == Some(w)
    ensures var k := sources[w][0].key;
            AllOrdered(Advance(sources, k), forward) && NotBefore(Advance(sources, k), k, forward)
  {
    var k := sources[w][0].key;
    AdvanceAt(sources, k);
    WinnerWins(sources, |sources|, forward);
    var rest := Advance(sources, k);
    hide Advance, Winner, RowsLayer;
    forall i | 0 <= i < |rest|
      ensures Ordered(rest[i], forward) && (rest[i] != [] ==> Ahead(k, rest[i][0].key, forward))
    {
      StepLosesKey(sources[i], k, forward);
    }
  }

  lemma StepDropsKey(sources: seq<seq<Row>>, forward: bool, w: nat)
    requires AllOrdered(sources, forward) && Winner(sources, |sources|, forward) == Some(w)
    ensures var k := sources[w][0].key;
            Stack(RowsLayers(Advance(sources, k))) == Stack(RowsLayers(sources)) - {k}
  {
    var k := sources[w][0].key;
    AdvanceAt(sources, k);
    WinnerWins(sources, |sources|, forward);
    var rest := Advance(sources, k);
    RowsLayersAt(sources);
    RowsLayersAt(rest);
    hide Advance, Winner, RowsLayer, RowsLayers, Stack;
    forall i | 0 <= i < |rest| ensures RowsLayers(rest)[i] == RowsLayers(sources)[i] - {k} {
      StepLosesKey(sources[i], k, forward);
    }
    StackWithout(RowsLayers(sources), RowsLayers(rest), k);
  }

  lemma WinnerIsStacked(sources: seq<seq<Row>>, forward: bool, w: nat)
    requires AllOrdered(sources, forward) && Winner(sources, |sources|, forward) == Some(w)
    ensures var row := sources[w][0];
            row.key in Stack(RowsLayers(sources)) && Stack(RowsLayers(sources))[row.key] == row.entry
  {
    var row := sources[w][0];
    WinnerWins(sources, |sources|, forward);
    RowsLayersAt(sources);
    RowsLayerAt(sources[w], forward, 0);
    hide Winner, RowsLayer, RowsLayers, Stack;
    forall i | 0 <= i < w ensures row.key !in RowsLayers(sources)[i] {
      StepLosesKey(sources[i], row.key, forward);
    }
    StackFirst(RowsLayers(sources), row.key, w);
  }

  lemma MergeStep(sources: seq<seq<Row>>, forward: bool, w: nat)
    requires AllOrdered(sources, forward) && Winner(sources, |sources|, forward) == Some(w)
    ensures var row := sources[w][0];
            var rest := Advance(sources, row.key);
            && AllOrdered(rest, forward) && NotBefore(rest, row.key, forward)
            && Stack(RowsLayers(sources)) == Stack(RowsLayers(rest))[row.key := row.entry]
            && row.key !in Stack(RowsLayers(rest))
  {
    hide Advance, Winner, RowsLayer, RowsLayers, Stack, AllOrdered, NotBefore;
    StepOrders(sources, forward, w);
    StepDropsKey(sources, forward, w);
    WinnerIsStacked(sources, forward, w);
  }

  lemma MergeUnfolds(sources: seq<seq<Row>>, forward: bool)
    requires AllOrdered(sources, forward)
    ensures var w := Winner(sources, |sources|, forward);
            match w
            case None => Merge(sources, forward) == []
            case Some(i) => i < |sources| && sources[i] != []
                            && Merge(sources, forward)
                                == [sources[i][0]] + Merge(Advance(sources, sources[i][0].key), forward)
  {
  }

  lemma NoRows()
    ensures RowsLayer([]) == map[]
  {
  }

  lemma FirstRow(row: Row, rows: seq<Row>, forward: bool)
    requires Ordered(rows, forward) && forall i | 0 <= i < |rows| :: Ahead(row.key, rows[i].key, forward)
    ensures Ordered([row] + rows, forward)
    ensures RowsLayer([row] + rows) == RowsLayer(rows)[row.key := row.entry]
  {
    hide Ahead;
    assert ([row] + rows)[1..] == rows;
  }

  /** The merge lists every key once, in order, each with the entry of its lowest-ranked source. */
  lemma {:induction false} MergeIsStack(sources: seq<seq<Row>>, forward: bool)
    requires AllOrdered(sources, forward)
    ensures Ordered(Merge(sources, forward), forward)
    ensures RowsLayer(Merge(sources, forward)) == Stack(RowsLayers(sources))
    ensures forall k | NotBefore(sources, k, forward) ::
            forall i | 0 <= i < |Merge(sources, forward)| :: Ahead(k, Merge(sources, forward)[i].key, forward)
    decreases Total(sources)
  {
    hide Merge, Advance, Winner, Stack, RowsLayer, RowsLayers, Total, Ahead, AllOrdered;
    var w := Winner(sources, |sources|, forward);
    WinnerWins(sources, |sources|, forward);
    MergeUnfolds(sources, forward);
    if w.None? {
      NothingLeft(sources);
      NoRows();
    } else {
      var row := sources[w.value][0];
      var rest := Advance(sources, row.key);
      AdvanceShrinks(sources, row.key);
      MergeStep(sources, forward, w.value);
      MergeIsStack(rest, forward);
      var merged := [row] + Merge(rest, forward);
      FirstRow(row, Merge(rest, forward), forward);
      AheadLaws(forward);
      forall k, i | NotBefore(sources, k, forward) && 0 <= i < |merged| ensures Ahead(k, merged[i].key, forward) {
        assert Ahead(k, row.key, forward);
        assert i > 0 ==> Ahead(row.key, merged[i].key, forward);
      }
    }
  }

  lemma {:induction false} NothingLeft(sources: seq<seq<Row>>)
    requires forall i | 0 <= i < |sources| :: sources[i] == []
    ensures Stack(RowsLayers(sources)) == map[]
  {
    if sources != [] {
      NothingLeft(sources[1..]);
    }
  }
}
