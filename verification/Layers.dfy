/**
 The algebra of LSM layers: a memtable, a frozen memtable or an SSTable is a finite map from keys to
 entries, where an entry is a live item or a tombstone.  Laying one layer over a plain store is an action
 of the right-biased merge of maps, and every argument about precedence below rests on that.
 */
module Layers {
  import opened Bytes
  import opened Values

  type Key = ByteString

  /** Skiplist::SnapshotEntry. */
  datatype Entry = Entry(item: Item, deleted: bool)

  type Layer = map<Key, Entry>

  /** The specification: one plain map. */
  type Store = map<Key, Item>

  /** Lay `l` over `s`: live entries win, tombstones hide. */
  function Apply(s: Store, l: Layer): (r: Store) {
    map k | k in s.Keys + l.Keys && (k in l ==> !l[k].deleted) :: if k in l then l[k].item else s[k]
  }

  lemma ApplyMerge(s: Store, a: Layer, b: Layer)
    ensures Apply(Apply(s, a), b) == Apply(s, a + b)
  {
  }

  lemma MergeAssociative(a: Layer, b: Layer, c: Layer)
    ensures (a + b) + c == a + (b + c)
  {
  }

  lemma StackOne(l: Layer)
    ensures Stack([l]) == l
  {
    assert Stack([l]) == Stack([]) + l;
  }

  function Find(s: Store, k: Key): (r: Option<Item>) {
    if k in s then Some(s[k]) else None
  }

  lemma FindApplied(s: Store, l: Layer, k: Key)
    ensures Find(Apply(s, l), k) == if k !in l then Find(s, k) else if l[k].deleted then None else Some(l[k].item)
  {
  }

  /** A store is known by its lookups. */
  lemma SameFinds(a: Store, b: Store)
    requires forall k: Key :: Find(a, k) == Find(b, k)
    ensures a == b
  {
    assert forall k | k in a :: Find(b, k) == Some(a[k]);
    assert forall k | k in b :: Find(a, k) == Some(b[k]);
  }

  /** Newest-first layers, flattened: earlier elements win. */
  function Stack(layers: seq<Layer>): (l: Layer) {
    if layers == [] then map[] else Stack(layers[1..]) + layers[0]
  }

  lemma {:induction false} StackAppend(a: seq<Layer>, b: seq<Layer>)
    ensures Stack(a + b) == Stack(b) + Stack(a)
  {
    if a == [] {
      assert a + b == b;
    } else {
      assert (a + b)[1..] == a[1..] + b && (a + b)[0] == a[0];
      StackAppend(a[1..], b);
      MergeAssociative(Stack(b), Stack(a[1..]), a[0]);
    }
  }

  /** get_locked's search: the first layer that knows the key is authoritative. */
  function Lookup(layers: seq<Layer>, k: Key): (r: Option<Item>) {
    if layers == [] then None
    else if k in layers[0] then (if layers[0][k].deleted then None else Some(layers[0][k].item))
    else Lookup(layers[1..], k)
  }

  lemma {:induction false} LookupIsFind(layers: seq<Layer>, k: Key)
    ensures Lookup(layers, k) == Find(Apply(map[], Stack(layers)), k)
  {
    if layers != [] {
      LookupIsFind(layers[1..], k);
    }
  }

  /** What compaction drops when its inputs are the complete snapshot. */
  function Purge(l: Layer): (r: Layer) {
    map k | k in l && !l[k].deleted :: l[k]
  }

  lemma PurgeAtBottom(l: Layer)
    ensures Apply(map[], Purge(l)) == Apply(map[], l)
  {
  }

  /** One locked write, which is also one write-ahead-log record. */
  datatype Write = Put(key: Key, item: Item) | Del(key: Key)

  function EntryOf(w: Write): (e: Entry) {
    match w
    case Put(_, item) => Entry(item, false)
    case Del(_) => Entry(map[], true)
  }

  function ApplyWrite(s: Store, w: Write): (r: Store) {
    match w
    case Put(k, item) => s[k := item]
    case Del(k) => s - {k}
  }

  /** A plain map updated by the writes one after another. */
  function Spec(s: Store, ws: seq<Write>): (r: Store) {
    if ws == [] then s else ApplyWrite(Spec(s, ws[..|ws|-1]), ws[|ws|-1])
  }

  ghost predicate LastOf(ws: seq<Write>, k: Key, i: int) {
    0 <= i < |ws| && ws[i].key == k && forall j | i < j < |ws| :: ws[j].key != k
  }

  /** The item of the key's last write if that is a put, and nothing after a delete or without a write. */
  ghost predicate LastWins(r: Option<Item>, ws: seq<Write>, k: Key) {
    && (forall i | LastOf(ws, k, i) :: r == match ws[i] case Put(_, item) => Some(item) case Del(_) => None)
    && ((forall i | 0 <= i < |ws| :: ws[i].key != k) ==> r == None)
  }

  lemma LastOfMore(ws: seq<Write>, k: Key, i: int)
    requires LastOf(ws, k, i)
    ensures 0 <= i < |ws| && (ws[|ws| - 1].key == k ==> i == |ws| - 1)
    ensures ws[|ws| - 1].key != k ==> i < |ws| - 1 && LastOf(ws[..|ws| - 1], k, i)
  {
    if ws[|ws| - 1].key != k {
      assert forall j | i < j < |ws| - 1 :: ws[..|ws| - 1][j] == ws[j];
    }
  }

  lemma FindWritten(s: Store, w: Write, k: Key)
    ensures Find(ApplyWrite(s, w), k)
         == if w.key != k then Find(s, k) else match w case Put(_, item) => Some(item) case Del(_) => None
  {
  }

  lemma {:induction false} SpecLastWins(ws: seq<Write>, k: Key)
    ensures LastWins(Find(Spec(map[], ws), k), ws, k)
  {
    if ws != [] {
      var n := |ws| - 1;
      var r := Find(Spec(map[], ws), k);
      SpecLastWins(ws[..n], k);
      FindWritten(Spec(map[], ws[..n]), ws[n], k);
      hide LastOf, Find, ApplyWrite, Spec;
      forall i | LastOf(ws, k, i)
        ensures 0 <= i < |ws| && r == match ws[i] case Put(_, item) => Some(item) case Del(_) => None
      {
        LastOfMore(ws, k, i);
      }
    }
  }

  /** The layer a log leaves in an empty memtable. */
  function LogLayer(ws: seq<Write>): (l: Layer) {
    if ws == [] then map[] else LogLayer(ws[..|ws|-1])[ws[|ws|-1].key := EntryOf(ws[|ws|-1])]
  }

  lemma ApplyOneMore(s: Store, l: Layer, w: Write)
    ensures Apply(s, l[w.key := EntryOf(w)]) == ApplyWrite(Apply(s, l), w)
  {
  }

  lemma {:induction false} SpecIsApply(s: Store, ws: seq<Write>)
    ensures Spec(s, ws) == Apply(s, LogLayer(ws))
  {
    if ws != [] {
      SpecIsApply(s, ws[..|ws|-1]);
      ApplyOneMore(s, LogLayer(ws[..|ws|-1]), ws[|ws|-1]);
    } else {
      assert Apply(s, map[]) == s;
    }
  }

  lemma {:induction false} SpecAppend(s: Store, a: seq<Write>, b: seq<Write>)
    ensures Spec(s, a + b) == Spec(Spec(s, a), b)
  {
    if b == [] {
      assert a + b == a;
    } else {
      assert (a + b)[..|a + b| - 1] == a + b[..|b|-1];
      SpecAppend(s, a, b[..|b|-1]);
    }
  }

  lemma {:induction false} LogLayerAppend(a: seq<Write>, b: seq<Write>)
    ensures LogLayer(a + b) == LogLayer(a) + LogLayer(b)
  {
    if b == [] {
      assert a + b == a;
    } else {
      assert (a + b)[..|a + b| - 1] == a + b[..|b|-1];
      LogLayerAppend(a, b[..|b|-1]);
    }
  }

  lemma {:induction false} LogLayerKeys(ws: seq<Write>)
    ensures forall i | 0 <= i < |ws| :: ws[i].key in LogLayer(ws)
    ensures forall k | k in LogLayer(ws) :: exists i :: 0 <= i < |ws| && ws[i].key == k
  {
    if ws != [] {
      var init := ws[..|ws|-1];
      LogLayerKeys(init);
      forall k | k in LogLayer(ws) ensures exists i :: 0 <= i < |ws| && ws[i].key == k {
        if k == ws[|ws|-1].key {
        } else {
          var i :| 0 <= i < |init| && init[i].key == k;
          assert ws[i].key == k;
        }
      }
    }
  }
}
