/**
 A layer as ascending rows: Skiplist::get_all_entries for a memtable, the sorted index for an SSTable.
 */
module Snapshots {
  import opened Bytes
  import opened Layers
  import opened KWayMerge
  import opened SortedKeys

  function RowsAt(ks: seq<Key>, l: Layer): (r: seq<Row>)
    requires forall i | 0 <= i < |ks| :: ks[i] in l
    ensures |r| == |ks| && forall i | 0 <= i < |r| :: r[i] == Row(ks[i], l[ks[i]])
  {
    seq(|ks|, i requires 0 <= i < |ks| => Row(ks[i], l[ks[i]]))
  }

  function RowsOf(l: Layer): (r: seq<Row>) {
    SortedEnumerates(l.Keys);
    assert forall i | 0 <= i < |Sorted(l.Keys)| :: Sorted(l.Keys)[i] in Sorted(l.Keys);
    RowsAt(Sorted(l.Keys), l)
  }

  lemma RowsAtOrdered(ks: seq<Key>, l: Layer)
    requires Ascending(ks) && forall i | 0 <= i < |ks| :: ks[i] in l
    ensures Ordered(RowsAt(ks, l), true)
  {
    hide Less;
  }

  lemma RowsAtAre(ks: seq<Key>, l: Layer)
    requires Ascending(ks) && forall i | 0 <= i < |ks| :: ks[i] in l
    requires forall k | k in l :: k in ks
    ensures RowsLayer(RowsAt(ks, l)) == l
  {
    var rows := RowsAt(ks, l);
    RowsAtOrdered(ks, l);
    RowsLayerKeys(rows);
    hide Ascending;
    forall k | k in l ensures k in RowsLayer(rows) && RowsLayer(rows)[k] == l[k] {
      var i :| 0 <= i < |ks| && ks[i] == k;
      assert rows[i] == Row(k, l[k]);
      RowsLayerAt(rows, true, i);
    }
  }

  /** The rows are the layer, in key order. */
  lemma RowsOfIs(l: Layer)
    ensures Ordered(RowsOf(l), true)
    ensures RowsLayer(RowsOf(l)) == l
  {
    hide RowsLayer, Ascending, Sorted, Ordered;
    SortedEnumerates(l.Keys);
    var ks := Sorted(l.Keys);
    assert forall i | 0 <= i < |ks| :: ks[i] in ks;
    RowsAtOrdered(ks, l);
    RowsAtAre(ks, l);
  }

  function RowsOfAll(layers: seq<Layer>): (r: seq<seq<Row>>)
    ensures |r| == |layers| && forall i | 0 <= i < |r| :: r[i] == RowsOf(layers[i])
  {
    seq(|layers|, i requires 0 <= i < |layers| => RowsOf(layers[i]))
  }

  lemma RowsOfAllAre(layers: seq<Layer>)
    ensures forall i | 0 <= i < |layers| :: Ordered(RowsOfAll(layers)[i], true)
    ensures RowsLayers(RowsOfAll(layers)) == layers
  {
    RowsLayersAt(RowsOfAll(layers));
    forall i | 0 <= i < |layers| ensures Ordered(RowsOfAll(layers)[i], true)
        && RowsLayers(RowsOfAll(layers))[i] == layers[i] {
      RowsOfIs(layers[i]);
    }
  }
}
