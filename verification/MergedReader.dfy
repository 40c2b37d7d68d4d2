/**
 MergedReader (src/engine/lsm/lsm_engine.cpp): one cursor per memtable snapshot or SSTable, moving forward
 or backward through the keys with a prefix, merged by a heap.
 */
module MergedReaders {
  import opened Bytes
  import opened Values
  import opened Layers
  import opened KWayMerge

  // ---- Cursors -------------------------------------------------------------------------------------

  /** A position in a source's ascending rows. */
  datatype Cursor = Cursor(rows: seq<Row>, pos: nat, valid: bool)

  /** First index whose key is not below k. */
  function LowerBound(rows: seq<Row>, k: Key): (i: nat)
    ensures i <= |rows|
  {
    if rows == [] || !Less(rows[0].key, k) then 0 else 1 + LowerBound(rows[1..], k)
  }

  /** First index whose key is above k. */
  function UpperBound(rows: seq<Row>, k: Key): (i: nat)
    ensures i <= |rows|
  {
    if rows == [] || Less(k, rows[0].key) then 0 else 1 + UpperBound(rows[1..], k)
  }

  function CursorBefore(rows: seq<Row>, after: nat): (c: Cursor) {
    if after > 0 then Cursor(rows, after - 1, true) else Cursor(rows, 0, false)
  }

  /** Where the constructor puts a source's cursor. */
  function InitialCursor(rows: seq<Row>, prefix: ByteString, start: Option<Key>, forward: bool): (c: Cursor) {
    if forward then
      var pos := if start.Some? then UpperBound(rows, start.value) else LowerBound(rows, prefix);
      Cursor(rows, pos, pos < |rows|)
    else
      CursorBefore(rows,
        if start.Some? then LowerBound(rows, start.value)
        else match PrefixSuccessor(prefix)
             case Some(upper) => LowerBound(rows, upper)
             case None => |rows|)
  }

  function StepCursor(c: Cursor, forward: bool): (r: Cursor) {
    if forward then Cursor(c.rows, c.pos + 1, c.pos + 1 < |c.rows|)
    else if c.pos == 0 then c.(valid := false)
    else c.(pos := c.pos - 1)
  }

  predicate InRange(c: Cursor, prefix: ByteString) {
    c.valid && c.pos < |c.rows| && HasPrefix(c.rows[c.pos].key, prefix)
  }

  /** The rows a source still has to offer: from its cursor on, until one lacks the prefix. */
  function Rest(c: Cursor, prefix: ByteString, forward: bool): (r: seq<Row>)
    decreases if forward then |c.rows| - c.pos else c.pos + if c.valid then 1 else 0
  {
    if InRange(c, prefix) then [c.rows[c.pos]] + Rest(StepCursor(c, forward), prefix, forward) else []
  }

  function Contribution(rows: seq<Row>, prefix: ByteString, start: Option<Key>, forward: bool): (r: seq<Row>) {
    Rest(InitialCursor(rows, prefix, start, forward), prefix, forward)
  }

  // ---- What a source contributes -------------------------------------------------------------------

  /** The keys a scan is asked for. */
  predicate InScope(k: Key, prefix: ByteString, start: Option<Key>, forward: bool) {
    HasPrefix(k, prefix) && (start.Some? ==> Ahead(start.value, k, forward))
  }

  /** Every source offers all its keys in scope, exactly when the start key passes this test. */
  predicate StartFits(prefix: ByteString, start: Option<Key>, forward: bool) {
    || start.None?
    || (forward && Leq(prefix, start.value + [0]))
    || (!forward && (PrefixSuccessor(prefix).None? || Leq(start.value, PrefixSuccessor(prefix).value)))
  }

  /** Without a prefix every start key fits. */
  lemma FitsEverywhere(start: Option<Key>)
    ensures StartFits([], start, true)
  {
    if start.Some? {
      LessTotal([], start.value + [0]);
    }
  }

  lemma {:induction false} LowerBoundSplits(rows: seq<Row>, k: Key, i: nat)
    requires Ordered(rows, true) && i < |rows|
    ensures i < LowerBound(rows, k) <==> Less(rows[i].key, k)
  {
    OrderLaws();
    if Less(rows[0].key, k) {
      if i > 0 {
        assert rows[1..][i - 1] == rows[i];
        LowerBoundSplits(rows[1..], k, i - 1);
      }
    } else if i > 0 {
      assert Ahead(rows[0].key, rows[i].key, true);
    }
  }

  lemma {:induction false} UpperBoundSplits(rows: seq<Row>, k: Key, i: nat)
    requires Ordered(rows, true) && i < |rows|
    ensures i < UpperBound(rows, k) <==> !Less(k, rows[i].key)
  {
    OrderLaws();
    if !Less(k, rows[0].key) {
      if i > 0 {
        assert rows[1..][i - 1] == rows[i];
        UpperBoundSplits(rows[1..], k, i - 1);
      }
    } else if i > 0 {
      assert Ahead(rows[0].key, rows[i].key, true);
    }
  }

  /** The row j places on from the cursor. */
  function At(c: Cursor, forward: bool, j: nat): (i: int) {
    if forward then c.pos + j else c.pos - j
  }

  /** Rest is the longest stretch of prefixed rows that starts at the cursor. */
  lemma {:induction false} RestIsStretch(c: Cursor, prefix: ByteString, forward: bool)
    requires c.valid ==> c.pos < |c.rows|
    ensures var r := Rest(c, prefix, forward);
            && (forall j | 0 <= j < |r| ::
                0 <= At(c, forward, j) < |c.rows| && r[j] == c.rows[At(c, forward, j)] && HasPrefix(r[j].key, prefix))
            && (c.valid && 0 <= At(c, forward, |r|) < |c.rows| ==> !HasPrefix(c.rows[At(c, forward, |r|)].key, prefix))
            && (r != [] ==> c.valid)
    decreases if forward then |c.rows| - c.pos else c.pos + if c.valid then 1 else 0
  {
    if InRange(c, prefix) {
      var c' := StepCursor(c, forward);
      RestIsStretch(c', prefix, forward);
      var r, r' := Rest(c, prefix, forward), Rest(c', prefix, forward);
      assert r == [c.rows[c.pos]] + r';
      forall j | 0 <= j < |r|
        ensures 0 <= At(c, forward, j) < |c.rows| && r[j] == c.rows[At(c, forward, j)] && HasPrefix(r[j].key, prefix)
      {
        if j > 0 {
          assert r[j] == r'[j - 1] && At(c, forward, j) == At(c', forward, j - 1);
        }
      }
    }
  }

  lemma RestOrdered(c: Cursor, prefix: ByteString, forward: bool)
    requires (c.valid ==> c.pos < |c.rows|) && Ordered(c.rows, true)
    ensures Ordered(Rest(c, prefix, forward), forward)
  {
    RestIsStretch(c, prefix, forward);
    var r := Rest(c, prefix, forward);
    forall i, j | 0 <= i < j < |r| ensures Ahead(r[i].key, r[j].key, forward) {
      assert Ahead(c.rows[if forward then At(c, forward, i) else At(c, forward, j)].key,
                   c.rows[if forward then At(c, forward, j) else At(c, forward, i)].key, true);
    }
  }

  /** Keys on the near side of the prefix range: a source dropped there would lose rows. */
  predicate Near(k: Key, prefix: ByteString, forward: bool) {
    if forward then Less(k, prefix) else Less(prefix, k) && !HasPrefix(k, prefix)
  }

  lemma StartFitsMeans(prefix: ByteString, start: Key, forward: bool, k: Key)
    requires StartFits(prefix, Some(start), forward) && Ahead(start, k, forward)
    ensures !Near(k, prefix, forward)
  {
    OrderLaws();
    PrefixRange(prefix, k);
    NextString(start, k);
  }

  /** Which rows the initial cursor has ahead of it. */
  lemma InitialSplits(rows: seq<Row>, prefix: ByteString, start: Option<Key>, forward: bool, i: nat)
    requires Ordered(rows, true) && i < |rows|
    ensures var c := InitialCursor(rows, prefix, start, forward);
            var ahead := c.valid && if forward then c.pos <= i else i <= c.pos;
            ahead <==> if start.Some? then Ahead(start.value, rows[i].key, forward)
                else !Near(rows[i].key, prefix, forward)
  {
    OrderLaws();
    var k := rows[i].key;
    PrefixRange(prefix, k);
    if start.Some? {
      LowerBoundSplits(rows, start.value, i);
      UpperBoundSplits(rows, start.value, i);
    } else {
      LowerBoundSplits(rows, prefix, i);
      if PrefixSuccessor(prefix).Some? {
        LowerBoundSplits(rows, PrefixSuccessor(prefix).value, i);
        SuccessorAbove(prefix);
      }
    }
  }

  lemma SuccessorAbove(prefix: ByteString)
    requires PrefixSuccessor(prefix).Some?
    ensures Less(prefix, PrefixSuccessor(prefix).value)
  {
    PrefixRange(prefix, prefix);
  }

  /** Between two rows ahead of the near side, the prefix range has no gaps. */
  lemma PrefixConvex(prefix: ByteString, forward: bool, k: Key, far: Key)
    requires !Near(k, prefix, forward) && HasPrefix(far, prefix) && (Ahead(k, far, forward) || k == far)
    ensures HasPrefix(k, prefix)
  {
    OrderLaws();
    PrefixRange(prefix, k);
    PrefixRange(prefix, far);
  }

  lemma ScopeIsOffered(rows: seq<Row>, prefix: ByteString, start: Option<Key>, forward: bool, i: nat)
    requires Ordered(rows, true) && StartFits(prefix, start, forward) && i < |rows|
    requires InScope(rows[i].key, prefix, start, forward)
    ensures rows[i] in Contribution(rows, prefix, start, forward)
  {
    var c := InitialCursor(rows, prefix, start, forward);
    var r := Rest(c, prefix, forward);
    RestIsStretch(c, prefix, forward);
    NotNear(rows[i].key, prefix, start, forward);
    InitialSplits(rows, prefix, start, forward, i);
    var d := if forward then i - c.pos else c.pos - i;
    assert At(c, forward, d) == i && d >= 0;
    if d >= |r| {
      var stop := At(c, forward, |r|);
      InitialSplits(rows, prefix, start, forward, stop);
      NotNear(rows[stop].key, prefix, start, forward);
      assert stop != i ==> Ahead(rows[stop].key, rows[i].key, forward);
      PrefixConvex(prefix, forward, rows[stop].key, rows[i].key);
    }
    assert r[d] == rows[i];
  }

  lemma OfferedIsScope(rows: seq<Row>, prefix: ByteString, start: Option<Key>, forward: bool, i: nat)
    requires Ordered(rows, true) && i < |rows|
    requires rows[i] in Contribution(rows, prefix, start, forward)
    ensures InScope(rows[i].key, prefix, start, forward)
  {
    var c := InitialCursor(rows, prefix, start, forward);
    var r := Rest(c, prefix, forward);
    RestIsStretch(c, prefix, forward);
    var j :| 0 <= j < |r| && r[j] == rows[i];
    SameIndex(rows, At(c, forward, j), i);
    InitialSplits(rows, prefix, start, forward, i);
  }

  /** With a start key that fits, a source contributes exactly its rows in scope. */
  lemma ContributesScope(rows: seq<Row>, prefix: ByteString, start: Option<Key>, forward: bool, i: nat)
    requires Ordered(rows, true) && StartFits(prefix, start, forward) && i < |rows|
    ensures rows[i] in Contribution(rows, prefix, start, forward) <==> InScope(rows[i].key, prefix, start, forward)
  {
    hide Contribution, InScope;
    if rows[i] in Contribution(rows, prefix, start, forward) {
      OfferedIsScope(rows, prefix, start, forward, i);
    }
    if InScope(rows[i].key, prefix, start, forward) {
      ScopeIsOffered(rows, prefix, start, forward, i);
    }
  }

  lemma NotNear(k: Key, prefix: ByteString, start: Option<Key>, forward: bool)
    requires StartFits(prefix, start, forward)
    requires if start.Some? then Ahead(start.value, k, forward) else !Near(k, prefix, forward) || HasPrefix(k, prefix)
    ensures !Near(k, prefix, forward)
  {
    if start.Some? {
      StartFitsMeans(prefix, start.value, forward, k);
    } else if HasPrefix(k, prefix) {
      PrefixIsLeq(k, prefix);
      OrderLaws();
    }
  }

  lemma SameIndex(rows: seq<Row>, a: nat, b: nat)
    requires Ordered(rows, true) && a < |rows| && b < |rows| && rows[a] == rows[b]
    ensures a == b
  {
    AheadLaws(true);
  }

  // ---- The start-key condition is exact ------------------------------------------------------------

  ghost predicate OffersScope(prefix: ByteString, start: Option<Key>, forward: bool) {
    forall rows: seq<Row> | Ordered(rows, true) ::
      forall i | 0 <= i < |rows| ::
        rows[i] in Contribution(rows, prefix, start, forward) <==> InScope(rows[i].key, prefix, start, forward)
  }

  /** A key in scope, and a key ahead of the start but short of the prefix range, that makes the source give up. */
  lemma MisfitLoses(prefix: ByteString, start: Key, forward: bool, e: Entry) returns (rows: seq<Row>, i: nat)
    requires !StartFits(prefix, Some(start), forward)
    ensures Ordered(rows, true) && i < |rows|
    ensures InScope(rows[i].key, prefix, Some(start), forward)
    ensures rows[i].entry == e && Contribution(rows, prefix, Some(start), forward) == []
  {
    OrderLaws();
    var near := if forward then start + [0] else PrefixSuccessor(prefix).value;
    NextString(start, start + [0]);
    NextString(start, prefix);
    PrefixRange(prefix, prefix);
    PrefixRange(prefix, near);
    if forward {
      rows, i := [Row(near, e), Row(prefix, e)], 1;
    } else {
      SuccessorAbove(prefix);
      rows, i := [Row(prefix, e), Row(near, e)], 0;
    }
    var c := InitialCursor(rows, prefix, Some(start), forward);
    InitialSplits(rows, prefix, Some(start), forward, 0);
    InitialSplits(rows, prefix, Some(start), forward, 1);
    assert c.pos == 1 - i && c.valid;
    assert !InRange(c, prefix);
  }

  /** The reader's sources offer exactly the rows in scope, whatever they hold, if and only if the start key fits. */
  lemma StartFitsIsExact(prefix: ByteString, start: Option<Key>, forward: bool)
    ensures StartFits(prefix, start, forward) <==> OffersScope(prefix, start, forward)
  {
    if StartFits(prefix, start, forward) {
      forall rows: seq<Row>, i | Ordered(rows, true) && 0 <= i < |rows|
        ensures rows[i] in Contribution(rows, prefix, start, forward) <==> InScope(rows[i].key, prefix, start, forward)
      {
        ContributesScope(rows, prefix, start, forward, i);
      }
    } else {
      var rows, i := MisfitLoses(prefix, start.value, forward, Entry(map[], false));
      assert !(rows[i] in Contribution(rows, prefix, start, forward) <==> InScope(rows[i].key, prefix, start, forward));
    }
  }

  /** In particular a start key with the prefix fits, in both directions. */
  lemma PrefixedStartFits(prefix: ByteString, start: Key, forward: bool)
    requires HasPrefix(start, prefix)
    ensures StartFits(prefix, Some(start), forward)
  {
    OrderLaws();
    PrefixRange(prefix, start);
    NextString(start, start + [0]);
  }

  // ---- The reader ----------------------------------------------------------------------------------

  datatype Node = Node(key: Key, source: nat)

  /** NodeOrder: the next key first, the lowest rank first among equal keys. */
  predicate NodeAhead(a: Node, b: Node, forward: bool) {
    Ahead(a.key, b.key, forward) || (a.key == b.key && a.source < b.source)
  }

  ghost predicate SortedHeap(heap: seq<Node>, forward: bool) {
    forall i, j | 0 <= i < j < |heap| :: NodeAhead(heap[i], heap[j], forward)
  }

  /** Pushing keeps the queue in pop order. */
  function Push(heap: seq<Node>, n: Node, forward: bool): (r: seq<Node>) {
    if heap == [] || NodeAhead(n, heap[0], forward) then [n] + heap else [heap[0]] + Push(heap[1..], n, forward)
  }

  lemma {:induction false} PushSorts(heap: seq<Node>, n: Node, forward: bool)
    requires SortedHeap(heap, forward) && n !in heap
    ensures SortedHeap(Push(heap, n, forward), forward)
    ensures forall x :: x in Push(heap, n, forward) <==> x in heap || x == n
  {
    AheadLaws(forward);
    if heap == [] || NodeAhead(n, heap[0], forward) {
      forall j | 0 <= j < |heap| ensures NodeAhead(n, heap[j], forward) {
        assert j > 0 ==> NodeAhead(heap[0], heap[j], forward);
      }
    } else {
      assert n != heap[0];
      assert NodeAhead(heap[0], n, forward);
      PushSorts(heap[1..], n, forward);
      var r := Push(heap[1..], n, forward);
      assert heap == [heap[0]] + heap[1..];
      forall j | 0 <= j < |r| ensures NodeAhead(heap[0], r[j], forward) {
        if r[j] != n {
          assert r[j] in r;
          assert r[j] in heap[1..];
          var i :| 0 <= i < |heap[1..]| && heap[1..][i] == r[j];
          assert heap[i + 1] == r[j];
        }
      }
    }
  }

  function Rests(sources: seq<Cursor>, prefix: ByteString, forward: bool): (r: seq<seq<Row>>)
    ensures |r| == |sources| && forall i | 0 <= i < |r| :: r[i] == Rest(sources[i], prefix, forward)
  {
    seq(|sources|, i requires 0 <= i < |sources| => Rest(sources[i], prefix, forward))
  }

  /** One node for every source that has rows left, except those in `pending`. */
  ghost predicate HeapHolds(heap: seq<Node>, rests: seq<seq<Row>>, pending: set<nat>) {
    && (forall i | 0 <= i < |heap| ::
          heap[i].source < |rests| && heap[i].source !in pending && rests[heap[i].source] != []
          && heap[i].key == rests[heap[i].source][0].key)
    && (forall s: nat | s < |rests| && s !in pending && rests[s] != [] :: Node(rests[s][0].key, s) in heap)
  }

  /** The heap's top is the merge's winner. */
  lemma TopWins(heap: seq<Node>, rests: seq<seq<Row>>, forward: bool)
    requires SortedHeap(heap, forward) && HeapHolds(heap, rests, {})
    ensures Winner(rests, |rests|, forward) == if heap == [] then None else Some(heap[0].source)
  {
    var w := Winner(rests, |rests|, forward);
    WinnerWins(rests, |rests|, forward);
    AheadLaws(forward);
    if w.Some? {
      var n := Node(rests[w.value][0].key, w.value);
      assert n in heap;
      var i :| 0 <= i < |heap| && heap[i] == n;
    }
  }

  lemma HeapBeforeSource(heap: seq<Node>, sources: seq<Cursor>, c: Cursor, prefix: ByteString, forward: bool)
    requires HeapHolds(heap, Rests(sources, prefix, forward), {})
    ensures HeapHolds(heap, Rests(sources + [c], prefix, forward), {|sources|})
    ensures Rests(sources + [c], prefix, forward) == Rests(sources, prefix, forward) + [Rest(c, prefix, forward)]
  {
    hide Rest;
    assert Rests(sources + [c], prefix, forward) == Rests(sources, prefix, forward) + [Rest(c, prefix, forward)];
  }

  ghost predicate SoundSources(sources: seq<Cursor>) {
    forall i | 0 <= i < |sources| ::
        (sources[i].valid ==> sources[i].pos < |sources[i].rows|) && Ordered(sources[i].rows, true)
  }

  lemma InitialSound(rows: seq<Row>, prefix: ByteString, start: Option<Key>, forward: bool)
    ensures var c := InitialCursor(rows, prefix, start, forward); c.rows == rows && (c.valid ==> c.pos < |rows|)
  {
  }

  /** A live row, as the reader hands it out. */
  datatype Pair = Pair(key: Key, item: Item)

  function LiveRows(rows: seq<Row>): (r: seq<Pair>) {
    if rows == [] then []
    else (if rows[0].entry.deleted then [] else [Pair(rows[0].key, rows[0].entry.item)]) + LiveRows(rows[1..])
  }

  function Contributions(tables: seq<seq<Row>>, prefix: ByteString, start: Option<Key>,
      forward: bool): (r: seq<seq<Row>>)
    ensures |r| == |tables| && forall i | 0 <= i < |r| :: r[i] == Contribution(tables[i], prefix, start, forward)
  {
    seq(|tables|, i requires 0 <= i < |tables| => Contribution(tables[i], prefix, start, forward))
  }

  lemma RestStep(c: Cursor, prefix: ByteString, forward: bool)
    requires Rest(c, prefix, forward) != []
    ensures c.valid && c.pos < |c.rows| && Rest(c, prefix, forward)[0] == c.rows[c.pos]
    ensures Rest(StepCursor(c, forward), prefix, forward) == Rest(c, prefix, forward)[1..]
    ensures StepCursor(c, forward).rows == c.rows
    ensures StepCursor(c, forward).valid ==> StepCursor(c, forward).pos < |c.rows|
  {
  }

  ghost function SourcesOf(nodes: seq<Node>): (r: set<nat>) {
    set n | n in nodes :: n.source
  }

  lemma EveryNodeIsCounted(nodes: seq<Node>)
    ensures forall i | 0 <= i < |nodes| :: nodes[i].source in SourcesOf(nodes)
  {
  }

  /** Once the nodes of the top key are out, exactly the sources standing on that key are pending. */
  lemma TopKeyTaken(all: seq<Node>, same: seq<Node>, left: seq<Node>, rests: seq<seq<Row>>, forward: bool)
    requires all == same + left && same != [] && SortedHeap(all, forward) && HeapHolds(all, rests, {})
    requires forall i | 0 <= i < |same| :: same[i].key == same[0].key
    requires left != [] ==> left[0].key != same[0].key
    ensures SortedHeap(left, forward) && HeapHolds(left, rests, SourcesOf(same))
    ensures forall s: nat :: s in SourcesOf(same) <==> s < |rests| && rests[s] != [] && rests[s][0].key == same[0].key
    ensures forall i, j | 0 <= i < j < |same| :: same[i].source < same[j].source
  {
    var k := same[0].key;
    AheadLaws(forward);
    assert forall i | 0 <= i < |left| :: left[i] == all[|same| + i];
    assert forall i | 0 <= i < |same| :: same[i] == all[i];
    forall i | 0 <= i < |left| ensures left[i].key != k {
      assert NodeAhead(all[0], all[|same|], forward);
      assert i > 0 ==> NodeAhead(all[|same|], all[|same| + i], forward);
    }
    forall i, j | 0 <= i < j < |same| ensures same[i].source < same[j].source {
      assert NodeAhead(all[i], all[j], forward);
    }
    forall s: nat | s < |rests| && rests[s] != [] && rests[s][0].key == k ensures s in SourcesOf(same) {
      assert Node(k, s) in all;
      assert Node(k, s) in same;
    }
    forall s: nat | s < |rests| && s !in SourcesOf(same) && rests[s] != [] ensures Node(rests[s][0].key, s) in left {
      assert Node(rests[s][0].key, s) in all;
    }
  }

  lemma PendingMayMove(heap: seq<Node>, rests: seq<seq<Row>>, rests': seq<seq<Row>>, pending: set<nat>)
    requires HeapHolds(heap, rests, pending) && |rests'| == |rests|
    requires forall s | 0 <= s < |rests| && s !in pending :: rests'[s] == rests[s]
    ensures HeapHolds(heap, rests', pending)
  {
  }

  /** Stepping exactly the sources that stand on the winner's key is one step of the merge. */
  lemma TakenIsMerged(rests: seq<seq<Row>>, after: seq<seq<Row>>, w: nat, taken: set<nat>, forward: bool)
    requires Winner(rests, |rests|, forward) == Some(w) && |after| == |rests|
    requires forall s: nat :: s in taken <==> s < |rests| && rests[s] != [] && rests[s][0].key == rests[w][0].key
    requires forall s | 0 <= s < |rests| :: after[s] == if s in taken then rests[s][1..] else rests[s]
    ensures Merge(rests, forward) == [rests[w][0]] + Merge(after, forward)
    ensures Total(after) < Total(rests)
  {
    AdvanceAt(rests, rests[w][0].key);
    AdvanceShrinks(rests, rests[w][0].key);
    assert after == Advance(rests, rests[w][0].key);
  }

  /** The first of the nodes of lowest rank; a source's rank is its position. */
  method LowestRank(nodes: seq<Node>) returns (n: Node)
    requires nodes != []
    ensures n in nodes && forall i | 0 <= i < |nodes| :: n.source <= nodes[i].source
  {
    n := nodes[0];
    for i := 1 to |nodes|
      invariant n in nodes && forall j | 0 <= j < i :: n.source <= nodes[j].source
    {
      if nodes[i].source < n.source {
        n := nodes[i];
      }
    }
  }

  class MergedReader {
    const prefix: ByteString
    const forward: bool
    var sources: seq<Cursor>
    var heap: seq<Node>

    ghost function Remaining(): (r: seq<seq<Row>>)
      reads this
    {
      Rests(sources, prefix, forward)
    }

    ghost predicate Valid()
      reads this
    {
      SoundSources(sources) && SortedHeap(heap, forward) && HeapHolds(heap, Remaining(), {})
    }

    constructor (tables: seq<seq<Row>>, prefix: ByteString, start: Option<Key>, forward: bool)
      requires forall i | 0 <= i < |tables| :: Ordered(tables[i], true)
      ensures Valid() && this.forward == forward && this.prefix == prefix
      ensures Remaining() == Contributions(tables, prefix, start, forward)
    {
      this.prefix, this.forward, sources, heap := prefix, forward, [], [];
      new;
      var i := 0;
      while i < |tables|
        invariant 0 <= i <= |tables| && |sources| == i
        invariant forall j | 0 <= j < i :: sources[j] == InitialCursor(tables[j], prefix, start, forward)
        invariant Valid()
      {
        InitialSound(tables[i], prefix, start, forward);
        AddSource(InitialCursor(tables[i], prefix, start, forward));
        i := i + 1;
      }
    }

    method AddSource(c: Cursor)
      requires Valid() && (c.valid ==> c.pos < |c.rows|) && Ordered(c.rows, true)
      modifies this
      ensures Valid() && sources == old(sources) + [c]
    {
      HeapBeforeSource(heap, sources, c, prefix, forward);
      sources := sources + [c];
      Enqueue(|sources| - 1, {|sources| - 1});
      assert {|sources| - 1} - {|sources| - 1} == {};
    }

    /** Put the source's current key into the heap, unless it has left the prefix. */
    method Enqueue(s: nat, ghost pending: set<nat>)
      requires s < |sources| && s in pending
      requires SoundSources(sources) && SortedHeap(heap, forward) && HeapHolds(heap, Remaining(), pending)
      modifies this`heap
      ensures SortedHeap(heap, forward) && HeapHolds(heap, Remaining(), pending - {s})
    {
      if InRange(sources[s], prefix) {
        var n := Node(sources[s].rows[sources[s].pos].key, s);
        assert n !in heap;
        PushSorts(heap, n, forward);
        ghost var before := heap;
        heap := Push(heap, n, forward);
        forall i | 0 <= i < |heap|
          ensures heap[i].source < |sources| && heap[i].source !in pending - {s} && Remaining()[heap[i].source] != []
               && heap[i].key == Remaining()[heap[i].source][0].key
        {
          assert heap[i] in heap;
          assert heap[i] == n || heap[i] in before;
        }
        forall x: nat | x < |sources| && x !in pending - {s} && Remaining()[x] != []
          ensures Node(Remaining()[x][0].key, x) in heap
        {
          assert x == s || Node(Remaining()[x][0].key, x) in before;
        }
      } else {
        assert Remaining()[s] == [];
      }
    }

    /** The inner do-while: take every node that stands on the top key. */
    method TakeTopKey() returns (same: seq<Node>)
      requires heap != []
      modifies this`heap
      ensures same != [] && old(heap) == same + heap
      ensures forall i | 0 <= i < |same| :: same[i].key == old(heap)[0].key
      ensures heap != [] ==> heap[0].key != old(heap)[0].key
    {
      var key := heap[0].key;
      same := [heap[0]];
      heap := heap[1..];
      while heap != [] && heap[0].key == key
        invariant same != [] && old(heap) == same + heap
        invariant forall i | 0 <= i < |same| :: same[i].key == key
        decreases |heap|
      {
        same := same + [heap[0]];
        heap := heap[1..];
      }
    }

    /** Step one source past its key and put its next key back. */
    method AdvanceOne(s: nat, ghost pending: set<nat>)
      requires s < |sources| && s in pending && Remaining()[s] != []
      requires SoundSources(sources) && SortedHeap(heap, forward) && HeapHolds(heap, Remaining(), pending)
      modifies this
      ensures |sources| == |old(sources)| && Remaining() == old(Remaining())[s := old(Remaining())[s][1..]]
      ensures SoundSources(sources) && SortedHeap(heap, forward) && HeapHolds(heap, Remaining(), pending - {s})
    {
      ghost var before := Remaining();
      RestStep(sources[s], prefix, forward);
      assert Ordered(sources[s].rows, true);
      hide Rest, StepCursor, Ordered, SortedHeap, HeapHolds;
      sources := sources[s := StepCursor(sources[s], forward)];
      PendingMayMove(heap, before, Remaining(), pending);
      Enqueue(s, pending);
    }

    /** Step every taken source. */
    method AdvanceAll(same: seq<Node>)
      requires SoundSources(sources) && SortedHeap(heap, forward) && HeapHolds(heap, Remaining(), SourcesOf(same))
      requires forall i, j | 0 <= i < j < |same| :: same[i].source < same[j].source
      requires forall i | 0 <= i < |same| :: same[i].source < |sources| && Remaining()[same[i].source] != []
      modifies this
      ensures Valid() && |sources| == |old(sources)|
      ensures forall s | 0 <= s < |sources| ::
                Remaining()[s] == if s in SourcesOf(same) then old(Remaining())[s][1..] else old(Remaining())[s]
    {
      hide Rest, SoundSources, SortedHeap, HeapHolds;
      ghost var rests := Remaining();
      var j := 0;
      assert same[0..] == same;
      while j < |same|
        invariant 0 <= j <= |same| && |sources| == |rests|
        invariant SoundSources(sources) && SortedHeap(heap, forward)
        invariant HeapHolds(heap, Remaining(), SourcesOf(same[j..]))
        invariant forall s | 0 <= s < |sources| ::
                    Remaining()[s] == if s in SourcesOf(same[..j]) then rests[s][1..] else rests[s]
      {
        NotYetTaken(same, j);
        hide SourcesOf;
        AdvanceOne(same[j].source, SourcesOf(same[j..]));
        j := j + 1;
      }
      assert same[j..] == [] && same[..j] == same;
      assert SourcesOf([]) == {};
    }

    /** One key out of the heap: the merge's next row. */
    method Pop() returns (row: Row)
      requires Valid() && heap != []
      modifies this
      ensures Valid() && |sources| == |old(sources)|
      ensures Merge(old(Remaining()), forward) == [row] + Merge(Remaining(), forward)
      ensures Total(Remaining()) < Total(old(Remaining()))
    {
      hide Rest, SoundSources, SortedHeap, HeapHolds, SourcesOf, Merge, Total, Winner, NodeAhead;
      ghost var rests, all := Remaining(), heap;
      TopWins(heap, rests, forward);
      var same := TakeTopKey();
      TopKeyTaken(all, same, heap, rests, forward);
      EveryNodeIsCounted(same);
      var winner := LowestRank(same);
      assert winner == same[0];
      RestStep(sources[winner.source], prefix, forward);
      row := sources[winner.source].rows[sources[winner.source].pos];
      AdvanceAll(same);
      TakenIsMerged(rests, Remaining(), winner.source, SourcesOf(same), forward);
    }

    /** The next live row in scan order, or None at the end; tombstones are consumed silently. */
    method Next() returns (r: Option<Pair>)
      requires Valid()
      modifies this
      ensures Valid() && |sources| == |old(sources)|
      ensures r.None? ==> LiveRows(Merge(old(Remaining()), forward)) == []
      ensures r.Some? ==>
              LiveRows(Merge(old(Remaining()), forward)) == [r.value] + LiveRows(Merge(Remaining(), forward))
      ensures r.Some? ==> Total(Remaining()) < Total(old(Remaining()))
    {
      while heap != []
        invariant Valid() && |sources| == |old(sources)|
        invariant LiveRows(Merge(Remaining(), forward)) == LiveRows(Merge(old(Remaining()), forward))
        invariant Total(Remaining()) <= Total(old(Remaining()))
        decreases Total(Remaining())
      {
        ghost var rests := Remaining();
        var row := Pop();
        assert ([row] + Merge(Remaining(), forward))[1..] == Merge(Remaining(), forward);
        if !row.entry.deleted {
          return Some(Pair(row.key, row.entry.item));
        }
      }
      TopWins(heap, Remaining(), forward);
      return None;
    }
  }

  lemma NotYetTaken(same: seq<Node>, j: nat)
    requires j < |same| && forall a, b | 0 <= a < b < |same| :: same[a].source < same[b].source
    ensures same[j].source !in SourcesOf(same[..j]) && same[j].source in SourcesOf(same[j..])
    ensures SourcesOf(same[j + 1..]) == SourcesOf(same[j..]) - {same[j].source}
    ensures SourcesOf(same[..j + 1]) == SourcesOf(same[..j]) + {same[j].source}
  {
    assert same[j..] == [same[j]] + same[j + 1..];
    assert same[..j + 1] == same[..j] + [same[j]];
    assert forall n | n in same[j + 1..] :: n.source != same[j].source;
    assert forall n | n in same[..j] :: n.source != same[j].source;
  }

  /** Read a range of the layered tables to its end. */
  method MergedScan(tables: seq<seq<Row>>, prefix: ByteString, start: Option<Key>,
      forward: bool) returns (out: seq<Pair>)
    requires forall i | 0 <= i < |tables| :: Ordered(tables[i], true)
    ensures out == LiveRows(Merge(Contributions(tables, prefix, start, forward), forward))
  {
    hide Merge, LiveRows, Rests, Contributions, SoundSources, SortedHeap, HeapHolds;
    var reader := new MergedReader(tables, prefix, start, forward);
    out := [];
    ghost var all := LiveRows(Merge(reader.Remaining(), forward));
    while true
      invariant reader.Valid() && reader.forward == forward && fresh(reader)
      invariant all == out + LiveRows(Merge(reader.Remaining(), forward))
      decreases Total(reader.Remaining())
    {
      var row := reader.Next();
      if row.None? {
        return;
      }
      out := out + [row.value];
    }
  }
}
