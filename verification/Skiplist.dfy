/** Skiplist (include/cynamodb/engine/lsm/skiplist.hpp): linked nodes, random heights, one writer at a time. */
module Skiplists {
  import opened Bytes
  import opened Values
  import opened Layers
  import opened Memtables
  import opened KWayMerge
  import opened SkiplistLinks

  /** kSkiplistMaxLevel. */
  const MAX_LEVEL: nat := 16

  class Node {
    const key: Key
    const height: nat
    var entry: Entry
    var forward: seq<Node?>

    constructor (key: Key, entry: Entry, height: nat)
      ensures this.key == key && this.entry == entry && this.height == height
      ensures forward == seq(height, _ => null)
    {
      this.key, this.entry, this.height := key, entry, height;
      forward := seq(height, _ => null);
    }
  }

  ghost function Heights(nodes: seq<Node>): (r: seq<nat>)
    ensures |r| == |nodes| && forall p | 0 <= p < |r| :: r[p] == nodes[p].height
  {
    seq(|nodes|, p requires 0 <= p < |nodes| => nodes[p].height)
  }

  ghost function Links(nodes: seq<Node>): (r: seq<seq<Node?>>)
    reads nodes`forward
    ensures |r| == |nodes| && forall p | 0 <= p < |r| :: r[p] == nodes[p].forward
  {
    if nodes == [] then [] else Links(nodes[..|nodes| - 1]) + [nodes[|nodes| - 1].forward]
  }

  /** The head, then every node in key order. */
  ghost predicate Spine(nodes: seq<Node>, level: nat) {
    && |nodes| > 0 && nodes[0].height == MAX_LEVEL && 1 <= level <= MAX_LEVEL
    && (forall p, q | 0 <= p < q < |nodes| :: nodes[p] != nodes[q])
    && (forall p | 0 < p < |nodes| :: 1 <= nodes[p].height <= level && ValidKey(nodes[p].key))
    && (forall p, q | 0 < p < q < |nodes| :: Less(nodes[p].key, nodes[q].key))
  }

  ghost function NodeRows(nodes: seq<Node>): (r: seq<Row>)
    requires |nodes| > 0
    reads nodes`entry
    ensures |r| == |nodes| - 1 && forall k | 0 <= k < |r| :: r[k] == Row(nodes[k + 1].key, nodes[k + 1].entry)
  {
    if |nodes| == 1 then []
    else NodeRows(nodes[..|nodes| - 1]) + [Row(nodes[|nodes| - 1].key, nodes[|nodes| - 1].entry)]
  }

  // ---- Rows and the map ----------------------------------------------------------------------------

  lemma SpineRows(nodes: seq<Node>, level: nat)
    requires Spine(nodes, level)
    ensures Ordered(NodeRows(nodes), true)
  {
    hide Links, NodeRows;
    hide Less;
  }

  lemma {:induction false} RowsLayerInsert(rows: seq<Row>, k: nat, row: Row)
    requires k <= |rows| && row.key !in RowsLayer(rows)
    ensures RowsLayer(Insert(rows, k, row)) == RowsLayer(rows)[row.key := row.entry]
  {
    if k == 0 {
      assert Insert(rows, 0, row) == [row] + rows;
      assert ([row] + rows)[1..] == rows;
    } else {
      var all := Insert(rows, k, row);
      assert all[1..] == Insert(rows[1..], k - 1, row) && all[0] == rows[0];
      RowsLayerInsert(rows[1..], k - 1, row);
    }
  }

  lemma {:induction false} RowsLayerUpdate(rows: seq<Row>, k: nat, entry: Entry)
    requires Ordered(rows, true) && k < |rows|
    ensures RowsLayer(rows[k := Row(rows[k].key, entry)]) == RowsLayer(rows)[rows[k].key := entry]
  {
    var all := rows[k := Row(rows[k].key, entry)];
    if k == 0 {
      assert all[1..] == rows[1..];
    } else {
      AheadLaws(true);
      assert all[1..] == rows[1..][k - 1 := Row(rows[k].key, entry)] && all[0] == rows[0];
      assert Ahead(rows[0].key, rows[k].key, true);
      RowsLayerUpdate(rows[1..], k - 1, entry);
    }
  }

  lemma {:induction false} RowsLayerCounts(rows: seq<Row>)
    requires Ordered(rows, true)
    ensures |RowsLayer(rows)| == |rows|
  {
    if rows != [] {
      RowsLayerCounts(rows[1..]);
      RowsLayerKeys(rows[1..]);
      AheadLaws(true);
      assert forall k | 0 <= k < |rows[1..]| :: rows[1..][k] == rows[k + 1];
      assert rows[0].key !in RowsLayer(rows[1..]);
      assert RowsLayer(rows).Keys == RowsLayer(rows[1..]).Keys + {rows[0].key};
    }
  }

  /** Position p is the last whose key is below `key`. */
  ghost predicate Splits(nodes: seq<Node>, key: Key, p: nat) {
    && p < |nodes|
    && (p > 0 ==> Less(nodes[p].key, key))
    && (p + 1 < |nodes| ==> !Less(nodes[p + 1].key, key))
  }

  lemma SplitFinds(nodes: seq<Node>, level: nat, key: Key, p: nat)
    requires Spine(nodes, level) && Splits(nodes, key, p)
    ensures key in RowsLayer(NodeRows(nodes)) <==> p + 1 < |nodes| && nodes[p + 1].key == key
    ensures key in RowsLayer(NodeRows(nodes)) ==> RowsLayer(NodeRows(nodes))[key] == nodes[p + 1].entry
  {
    hide Links, NodeRows;
    var rows := NodeRows(nodes);
    SpineRows(nodes, level);
    RowsLayerKeys(rows);
    OrderLaws();
    if p + 1 < |nodes| && nodes[p + 1].key == key {
      RowsLayerAt(rows, true, p);
    }
    if key in RowsLayer(rows) {
      var k :| 0 <= k < |rows| && rows[k].key == key;
      assert nodes[k + 1].key == key;
      assert k + 1 > p;
      assert k + 1 == p + 1;
    }
  }

  /** A predecessor at level i of the position after p. */
  ghost predicate Precedes(nodes: seq<Node>, p: nat, i: nat, a: nat) {
    a <= p < |nodes| && i < nodes[a].height && NextIndex(Heights(nodes), a + 1, i) > p
  }

  /** The search at level i stopped at position a: what follows there is not below the key. */
  ghost predicate Stopped(nodes: seq<Node>, key: Key, i: nat, a: nat) {
    && a < |nodes| && i < nodes[a].height
    && var q := NextIndex(Heights(nodes), a + 1, i); q < |nodes| ==> !Less(nodes[q].key, key)
  }

  lemma StoppedPrecedes(nodes: seq<Node>, level: nat, key: Key, i: nat, a: nat, p: nat)
    requires Spine(nodes, level) && Stopped(nodes, key, i, a) && a <= p < |nodes| && (p > 0 ==> Less(nodes[p].key, key))
    ensures Precedes(nodes, p, i, a)
  {
    var q := NextIndex(Heights(nodes), a + 1, i);
    NextIndexIs(Heights(nodes), a + 1, i);
    OrderLaws();
  }

  lemma BottomNext(nodes: seq<Node>, level: nat, p: nat)
    requires Spine(nodes, level) && p < |nodes|
    ensures NextIndex(Heights(nodes), p + 1, 0) == p + 1
  {
  }

  lemma StoppedHeight(nodes: seq<Node>, key: Key, i: nat, a: nat)
    requires Stopped(nodes, key, i, a)
    ensures i < nodes[a].height
  {
  }

  /** On the bottom level the search stops right before the key's place. */
  lemma Arrived(nodes: seq<Node>, level: nat, key: Key, p: nat)
    requires Spine(nodes, level) && Stopped(nodes, key, 0, p) && (p > 0 ==> Less(nodes[p].key, key))
    ensures Splits(nodes, key, p)
  {
    BottomNext(nodes, level, p);
  }

  // ---- Splicing a node in --------------------------------------------------------------------------

  ghost predicate Distinct(nodes: seq<Node>) {
    forall p, q | 0 <= p < q < |nodes| :: nodes[p] != nodes[q]
  }

  /** `pred` at position a can take the node at position pos as its successor on level i. */
  ghost predicate CanLink(nodes: seq<Node>, pos: nat, i: nat, a: nat) {
    a < pos < |nodes| && i < nodes[a].height && NextIndex(Heights(nodes)[pos := 0], a + 1, i) > pos
  }

  lemma CanLinkBound(nodes: seq<Node>, pos: nat, i: nat, a: nat)
    requires CanLink(nodes, pos, i, a)
    ensures a < pos < |nodes|
  {
  }

  method LinkLevel(node: Node, pred: Node, i: nat, ghost nodes: seq<Node>, ghost pos: nat, ghost a: nat)
    requires Distinct(nodes) && CanLink(nodes, pos, i, a) && nodes[pos] == node && nodes[a] == pred && i < node.height
    requires PartLinked<Node?>(Links(nodes), nodes, null, Heights(nodes), pos, i)
    modifies node`forward, pred`forward
    ensures PartLinked<Node?>(Links(nodes), nodes, null, Heights(nodes), pos, i + 1)
  {
    hide Links, NodeRows;
    ghost var before := Links(nodes);
    SpliceLevel<Node?>(before, nodes, null, Heights(nodes), pos, i, a);
    hide PartLinked, NextIndex;
    Sized(nodes, pos, i);
    node.forward := node.forward[i := pred.forward[i]];
    pred.forward := pred.forward[i := node];
    assert Links(nodes) == before[pos := before[pos][i := before[a][i]]][a := before[a][i := node]];
  }

  lemma Sized(nodes: seq<Node>, pos: nat, n: nat)
    requires PartLinked<Node?>(Links(nodes), nodes, null, Heights(nodes), pos, n)
    ensures forall p | 0 <= p < |nodes| :: |nodes[p].forward| == nodes[p].height
  {
    hide Links, NodeRows;
    assert forall p | 0 <= p < |nodes| :: Links(nodes)[p] == nodes[p].forward;
  }

  method LinkAll(node: Node, update: seq<Node?>, ghost at: seq<nat>, ghost nodes: seq<Node>, ghost pos: nat)
    requires Distinct(nodes) && 0 < pos < |nodes| && nodes[pos] == node && node.height <= |update|
             && node.height <= |at|
    requires forall i | 0 <= i < node.height :: CanLink(nodes, pos, i, at[i]) && update[i] == nodes[at[i]]
    requires PartLinked<Node?>(Links(nodes), nodes, null, Heights(nodes), pos, 0)
    modifies nodes`forward
    ensures Linked<Node?>(Links(nodes), nodes, null, Heights(nodes))
  {
    hide Links, NodeRows;
    hide PartLinked, CanLink, Linked;
    for i := 0 to node.height
      invariant PartLinked<Node?>(Links(nodes), nodes, null, Heights(nodes), pos, i)
    {
      CanLinkBound(nodes, pos, i, at[i]);
      LinkLevel(node, update[i], i, nodes, pos, at[i]);
    }
    AfterSplice<Node?>(Links(nodes), nodes, null, Heights(nodes), pos);
  }

  /** Predecessors in the old list can take the new node. */
  lemma PrecedesCanLink(nodes: seq<Node>, p: nat, i: nat, a: nat, node: Node)
    requires Precedes(nodes, p, i, a)
    ensures CanLink(Insert(nodes, p + 1, node), p + 1, i, a)
  {
    var ns := Insert(nodes, p + 1, node);
    assert Heights(ns) == Insert<nat>(Heights(nodes), p + 1, node.height);
    SkippedNext(Heights(nodes), p + 1, node.height, a, i);
  }

  /** Above the list's level only the head stands. */
  lemma HeadPrecedes(nodes: seq<Node>, level: nat, p: nat, i: nat)
    requires Spine(nodes, level) && p < |nodes| && level <= i < MAX_LEVEL
    ensures Precedes(nodes, p, i, 0)
  {
    NextIndexIs(Heights(nodes), 1, i);
  }

  lemma SpineInsert(nodes: seq<Node>, level: nat, key: Key, p: nat, node: Node)
    requires Spine(nodes, level) && Splits(nodes, key, p) && ValidKey(key) && node !in nodes && node.key == key
    requires p + 1 < |nodes| ==> nodes[p + 1].key != key
    requires 1 <= node.height <= MAX_LEVEL
    ensures Spine(Insert(nodes, p + 1, node), if node.height > level then node.height else level)
  {
    OrderLaws();
    var ns := Insert(nodes, p + 1, node);
    hide Less;
    forall q, r | 0 < q < r < |ns| ensures Less(ns[q].key, ns[r].key) {
      assert q != p + 1 ==> ns[q] == nodes[if q < p + 1 then q else q - 1];
      assert r != p + 1 ==> ns[r] == nodes[if r < p + 1 then r else r - 1];
    }
  }

  class Skiplist {
    const head: Node
    var level: nat
    var size: nat
    ghost var nodes: seq<Node>

    ghost predicate Valid()
      reads this, nodes
    {
      && Spine(nodes, level) && nodes[0] == head && size == |nodes| - 1
      && Linked<Node?>(Links(nodes), nodes, null, Heights(nodes))
    }

    ghost function Rows(): (r: seq<Row>)
      requires Valid()
      reads this, nodes
    {
      NodeRows(nodes)
    }

    /** The finite map the list stands for. */
    ghost function Contents(): (l: Layer)
      requires Valid()
      reads this, nodes
    {
      RowsLayer(Rows())
    }

    constructor ()
      ensures Valid() && fresh(head) && nodes == [head] && Contents() == map[]
    {
      head := new Node([], Entry(map[], false), MAX_LEVEL);
      level, size := 1, 0;
      nodes := [head];
      new;
      forall i | 0 <= i < MAX_LEVEL ensures NextIndex(Heights(nodes), 1, i) == 1 {
      }
      assert Rows() == [];
    }

    /** Forward along level i while the keys are below `key`. */
    method Walk(key: Key, start: Node, i: nat, ghost from: nat) returns (curr: Node, ghost p: nat)
      requires Valid() && from < |nodes| && start == nodes[from] && i < start.height
               && (from > 0 ==> Less(nodes[from].key, key))
      ensures from <= p < |nodes| && curr == nodes[p] && (p > 0 ==> Less(nodes[p].key, key))
              && Stopped(nodes, key, i, p)
    {
      hide Links, NodeRows;
      ghost var hs := Heights(nodes);
      hide Less, NextIndex;
      curr, p := start, from;
      var next := curr.forward[i];
      assert Links(nodes)[p][i] == next;
      while next != null && Less(next.key, key)
        invariant from <= p < |nodes| && curr == nodes[p] && (p > 0 ==> Less(nodes[p].key, key)) && i < curr.height
        invariant next == At<Node?>(nodes, null, NextIndex(hs, p + 1, i))
        decreases |nodes| - p
      {
        NextIndexIs(hs, p + 1, i);
        p := NextIndex(hs, p + 1, i);
        curr := next;
        assert Links(nodes)[p][i] == curr.forward[i];
        next := curr.forward[i];
      }
    }

    /** The descent every operation starts with; `update` holds the last node visited at each level. */
    method Descend(key: Key) returns (curr: Node, update: seq<Node?>, ghost at: seq<nat>, ghost p: nat)
      requires Valid()
      ensures Splits(nodes, key, p) && curr == nodes[p]
      ensures |update| == MAX_LEVEL && |at| == MAX_LEVEL
      ensures forall i | 0 <= i < level :: Precedes(nodes, p, i, at[i]) && update[i] == nodes[at[i]]
    {
      hide Less, NextIndex, Stopped, Linked;
      curr, p := head, 0;
      update, at := seq(MAX_LEVEL, _ => null), seq(MAX_LEVEL, _ => 0);
      var i := level;
      while i > 0
        invariant 0 <= i <= level && p < |nodes| && curr == nodes[p] && (p > 0 ==> Less(nodes[p].key, key))
                  && curr.height >= i
        invariant |update| == MAX_LEVEL && |at| == MAX_LEVEL && (i < level ==> at[i] == p)
        invariant forall j | i <= j < level :: at[j] <= p && Stopped(nodes, key, j, at[j]) && update[j] == nodes[at[j]]
      {
        i := i - 1;
        curr, p := Walk(key, curr, i, p);
        StoppedHeight(nodes, key, i, p);
        update := update[i := curr];
        at := at[i := p];
      }
      Arrived(nodes, level, key, p);
      forall j | 0 <= j < level ensures Precedes(nodes, p, j, at[j]) {
        StoppedPrecedes(nodes, level, key, j, at[j], p);
      }
    }

    /** The descent, and the node that stands where the key would. */
    method Locate(key: Key) returns (next: Node?, update: seq<Node?>, ghost at: seq<nat>, ghost p: nat)
      requires Valid()
      ensures Splits(nodes, key, p) && next == At<Node?>(nodes, null, p + 1)
      ensures |update| == MAX_LEVEL && |at| == MAX_LEVEL
      ensures forall i | 0 <= i < level :: Precedes(nodes, p, i, at[i]) && update[i] == nodes[at[i]]
      ensures key in Contents() <==> next != null && next.key == key
      ensures key in Contents() ==> Contents()[key] == next.entry
    {
      hide Links, NodeRows;
      var curr;
      curr, update, at, p := Descend(key);
      SplitFinds(nodes, level, key, p);
      BottomNext(nodes, level, p);
      hide Less, NextIndex, RowsLayer, Precedes, NodeRows;
      assert Links(nodes)[p][0] == curr.forward[0];
      next := curr.forward[0];
    }

    method Get(key: Key) returns (r: Option<Item>)
      requires Valid()
      ensures r == if key in Contents() && !Contents()[key].deleted then Some(Contents()[key].item) else None
    {
      if !ValidKey(key) {
        NoInvalidKey(nodes, level, key);
        return None;
      }
      var next, update, at, p := Locate(key);
      hide Valid, RowsLayer;
      if next != null && next.key == key {
        return if next.entry.deleted then None else Some(next.entry.item);
      }
      return None;
    }

    method IsTombstoned(key: Key) returns (r: bool)
      requires Valid()
      ensures r <==> key in Contents() && Contents()[key].deleted
    {
      if !ValidKey(key) {
        NoInvalidKey(nodes, level, key);
        return false;
      }
      var next, update, at, p := Locate(key);
      hide Valid, RowsLayer;
      return next != null && next.key == key && next.entry.deleted;
    }

    lemma SizeCounts()
      requires Valid()
      ensures size == |Contents()|
    {
      hide Links, NodeRows;
      SpineRows(nodes, level);
      RowsLayerCounts(Rows());
    }

    /** Overwrites the key's entry or links a new node of the drawn height; a full list ignores new keys. */
    method Insert(key: Key, entry: Entry, newLevel: nat)
      requires Valid() && 1 <= newLevel <= MAX_LEVEL
      modifies this, nodes
      ensures Valid() && forall n | n in nodes :: n in old(nodes) || fresh(n)
      ensures Contents() == Inserted(old(Contents()), key, entry)
    {
      hide Contents, Valid, ValidKey, Splits, Precedes;
      SizeCounts();
      if !ValidKey(key) {
        return;
      }
      var next, update, at, p := Locate(key);
      if next != null && next.key == key {
        Overwrite(next, entry, p);
      } else if size < MAX_ENTRIES {
        AddNode(key, entry, newLevel, update, at, p);
      }
    }

    method Overwrite(node: Node, entry: Entry, ghost p: nat)
      requires Valid() && p + 1 < |nodes| && node == nodes[p + 1]
      modifies node`entry
      ensures Valid() && Contents() == old(Contents())[node.key := entry]
    {
      hide Links, NodeRows;
      SpineRows(nodes, level);
      RowsLayerUpdate(Rows(), p, entry);
      ghost var before := Rows();
      node.entry := entry;
      assert Links(nodes) == old(Links(nodes));
      assert Rows() == before[p := Row(node.key, entry)];
    }

    /** The head stands in for levels the list has not reached yet. */
    method Raise(update: seq<Node?>, ghost at: seq<nat>, newLevel: nat, ghost p: nat) returns (preds: seq<Node?>,
        ghost ats: seq<nat>)
      requires Valid() && newLevel <= MAX_LEVEL && p < |nodes| && |update| == MAX_LEVEL && |at| == MAX_LEVEL
      requires forall i | 0 <= i < level :: Precedes(nodes, p, i, at[i]) && update[i] == nodes[at[i]]
      ensures |preds| == MAX_LEVEL && |ats| == MAX_LEVEL
      ensures forall i | 0 <= i < newLevel :: Precedes(nodes, p, i, ats[i]) && preds[i] == nodes[ats[i]]
    {
      preds, ats := update, at;
      var i := level;
      while i < newLevel
        invariant level <= i <= MAX_LEVEL && |preds| == MAX_LEVEL && |ats| == MAX_LEVEL
        invariant forall j | 0 <= j < i :: Precedes(nodes, p, j, ats[j]) && preds[j] == nodes[ats[j]]
      {
        HeadPrecedes(nodes, level, p, i);
        hide Precedes;
        preds := preds[i := head];
        ats := ats[i := 0];
        i := i + 1;
      }
    }

    /** Links a fresh node at every level of its height. */
    method LinkFresh(node: Node, preds: seq<Node?>, ghost ats: seq<nat>, ghost p: nat)
      requires Valid() && ValidKey(node.key) && Splits(nodes, node.key, p)
               && (p + 1 < |nodes| ==> nodes[p + 1].key != node.key)
      requires node !in nodes && 1 <= node.height <= MAX_LEVEL && |node.forward| == node.height
      requires |preds| == MAX_LEVEL && |ats| == MAX_LEVEL
      requires forall i | 0 <= i < node.height :: Precedes(nodes, p, i, ats[i]) && preds[i] == nodes[ats[i]]
      modifies nodes`forward, node`forward
      ensures var ns := SkiplistLinks.Insert(nodes, p + 1, node);
              Spine(ns, if node.height > level then node.height else level)
                  && Linked<Node?>(Links(ns), ns, null, Heights(ns))
    {
      hide Links, NodeRows, NextIndex, Less, Spine, Linked, PartLinked, CanLink, Distinct, Precedes, Heights,
          SkiplistLinks.Insert, ValidKey;
      ghost var ns := SkiplistLinks.Insert(nodes, p + 1, node);
      Prepared(nodes, level, node.key, p, node, ats);
      assert forall n | n in ns :: n in nodes || n == node;
      LinkAll(node, preds, ats, ns, p + 1);
    }

    method LinkNew(key: Key, entry: Entry, newLevel: nat, update: seq<Node?>, ghost at: seq<nat>, ghost p: nat)
      requires Valid() && 1 <= newLevel <= MAX_LEVEL && ValidKey(key) && Splits(nodes, key, p)
      requires p + 1 < |nodes| ==> nodes[p + 1].key != key
      requires |update| == MAX_LEVEL && |at| == MAX_LEVEL
      requires forall i | 0 <= i < level :: Precedes(nodes, p, i, at[i]) && update[i] == nodes[at[i]]
      modifies this, nodes`forward
      ensures Valid() && forall n | n in nodes :: n in old(nodes) || fresh(n)
      ensures Rows() == SkiplistLinks.Insert(old(Rows()), p, Row(key, entry))
    {
      hide NextIndex, Less, Linked, Precedes, Links, NodeRows, Heights, ValidKey;
      var preds, ats := Raise(update, at, newLevel, p);
      var node := new Node(key, entry, newLevel);
      LinkFresh(node, preds, ats, p);
      RowsInsert(nodes, p, node);
      hide Spine;
      Adopt(SkiplistLinks.Insert(nodes, p + 1, node), newLevel);
    }

    method AddNode(key: Key, entry: Entry, newLevel: nat, update: seq<Node?>, ghost at: seq<nat>, ghost p: nat)
      requires Valid() && 1 <= newLevel <= MAX_LEVEL && ValidKey(key) && Splits(nodes, key, p)
      requires p + 1 < |nodes| ==> nodes[p + 1].key != key
      requires |update| == MAX_LEVEL && |at| == MAX_LEVEL
      requires forall i | 0 <= i < level :: Precedes(nodes, p, i, at[i]) && update[i] == nodes[at[i]]
      modifies this, nodes`forward
      ensures Valid() && forall n | n in nodes :: n in old(nodes) || fresh(n)
      ensures Contents() == old(Contents())[key := entry]
    {
      SplitFinds(nodes, level, key, p);
      RowsLayerInsert(Rows(), p, Row(key, entry));
      hide Linked, Links, NodeRows, Heights, RowsLayer, Precedes, Spine, SkiplistLinks.Insert;
      LinkNew(key, entry, newLevel, update, at, p);
    }

    method Adopt(ghost ns: seq<Node>, newLevel: nat)
      requires Spine(ns, if newLevel > level then newLevel else level) && ns[0] == head && |ns| == size + 2
      requires Linked<Node?>(Links(ns), ns, null, Heights(ns))
      modifies this
      ensures Valid() && nodes == ns && Rows() == old(NodeRows(ns))
    {
      hide Links, NodeRows;
      hide Spine, Linked;
      level := if newLevel > level then newLevel else level;
      size := size + 1;
      nodes := ns;
    }

    /** Walks the bottom level. */
    method GetAllEntries() returns (rows: seq<Row>)
      requires Valid()
      ensures rows == Rows() && Ordered(rows, true) && RowsLayer(rows) == Contents()
    {
      hide Links, NodeRows;
      SpineRows(nodes, level);
      rows := [];
      ghost var p := 0;
      BottomNext(nodes, level, 0);
      assert Links(nodes)[0][0] == head.forward[0];
      var curr := head.forward[0];
      while curr != null
        invariant p < |nodes| && curr == At<Node?>(nodes, null, p + 1)
        invariant rows == NodeRows(nodes)[..p]
        decreases |nodes| - p
      {
        rows := rows + [Row(curr.key, curr.entry)];
        p := p + 1;
        BottomNext(nodes, level, p);
        assert Links(nodes)[p][0] == curr.forward[0];
        curr := curr.forward[0];
      }
      assert NodeRows(nodes)[..p] == NodeRows(nodes);
    }
  }

  /** All that linking needs to know about a fresh node. */
  lemma Prepared(nodes: seq<Node>, level: nat, key: Key, p: nat, node: Node, at: seq<nat>)
    requires Spine(nodes, level) && Linked<Node?>(Links(nodes), nodes, null, Heights(nodes))
    requires Splits(nodes, key, p) && ValidKey(key) && (p + 1 < |nodes| ==> nodes[p + 1].key != key)
    requires node !in nodes && node.key == key && 1 <= node.height <= MAX_LEVEL && |node.forward| == node.height
    requires node.height <= |at| && forall i | 0 <= i < node.height :: Precedes(nodes, p, i, at[i])
    ensures var ns := Insert(nodes, p + 1, node);
            && Distinct(ns) && Spine(ns, if node.height > level then node.height else level)
            && PartLinked<Node?>(Links(ns), ns, null, Heights(ns), p + 1, 0)
            && forall i | 0 <= i < node.height :: CanLink(ns, p + 1, i, at[i]) && ns[at[i]] == nodes[at[i]]
  {
    hide Links, NodeRows;
    var ns := Insert(nodes, p + 1, node);
    SpineInsert(nodes, level, key, p, node);
    SpineDistinct(ns, if node.height > level then node.height else level);
    hide Spine, Less, Distinct, NextIndex, PartLinked;
    forall i | 0 <= i < node.height ensures CanLink(ns, p + 1, i, at[i]) && ns[at[i]] == nodes[at[i]] {
      PrecedesCanLink(nodes, p, i, at[i], node);
    }
    hide Precedes, CanLink, Linked;
    BeforeSplice<Node?>(Links(nodes), nodes, null, Heights(nodes), p + 1, node, node.forward);
    LinksInsert(nodes, p + 1, node);
    HeightsInsert(nodes, p + 1, node);
    NodesInsert(nodes, p + 1, node);
  }

  lemma SpineDistinct(nodes: seq<Node>, level: nat)
    requires Spine(nodes, level)
    ensures Distinct(nodes)
  {
    hide Less;
  }

  lemma LinksInsert(nodes: seq<Node>, pos: nat, node: Node)
    requires pos <= |nodes|
    ensures Links(Insert(nodes, pos, node)) == Insert(Links(nodes), pos, node.forward)
  {
    hide Links, Insert, Heights;
    var ns, links := Insert(nodes, pos, node), Insert(Links(nodes), pos, node.forward);
    var got := Links(ns);
    assert |got| == |links|;
    forall p | 0 <= p < |links| ensures got[p] == links[p] {
      if p < pos {
        assert links[p] == Links(nodes)[p];
      } else if p > pos {
        assert links[p] == Links(nodes)[p - 1];
      }
    }
  }

  lemma HeightsInsert(nodes: seq<Node>, pos: nat, node: Node)
    requires pos <= |nodes| && |node.forward| == node.height
    ensures Heights(Insert(nodes, pos, node)) == Insert<nat>(Heights(nodes), pos, |node.forward|)
  {
    hide Links;
  }

  lemma NodesInsert(nodes: seq<Node>, pos: nat, node: Node)
    requires pos <= |nodes|
    ensures Insert<Node?>(nodes, pos, node) == Insert(nodes, pos, node)
  {
  }

  lemma RowsInsert(nodes: seq<Node>, p: nat, node: Node)
    requires p < |nodes|
    ensures NodeRows(Insert(nodes, p + 1, node)) == Insert(NodeRows(nodes), p, Row(node.key, node.entry))
  {
    hide Links, NodeRows;
  }

  lemma NoInvalidKey(nodes: seq<Node>, level: nat, key: Key)
    requires Spine(nodes, level) && !ValidKey(key)
    ensures key !in RowsLayer(NodeRows(nodes))
  {
    hide Links, NodeRows;
    RowsLayerKeys(NodeRows(nodes));
  }
}
