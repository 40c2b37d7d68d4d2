/**
 Tables in one keyspace: LsmEngine folds the table name into the stored key (internal_key, table_prefix),
 MemoryEngine keeps one map per table.  Both give every table the same content and the same pages.
 */
module Tables {
  import opened Bytes
  import opened Values
  import opened Layers
  import opened KWayMerge
  import opened MergedReaders
  import opened Listings
  import opened Paging

  /** Table names never contain the separator. */
  predicate NulFree(table: ByteString) {
    forall i | 0 <= i < |table| :: table[i] != 0
  }

  function TablePrefix(table: ByteString): (p: ByteString) {
    table + [0]
  }

  function InternalKey(table: ByteString, key: Key): (k: Key) {
    table + [0] + key
  }

  lemma PrefixAppend(p: ByteString, k: ByteString, q: ByteString)
    ensures HasPrefix(p + k, p + q) <==> HasPrefix(k, q)
    ensures (p + k)[|p|..] == k
  {
    if |q| <= |k| {
      assert (p + k)[..|p + q|] == p + k[..|q|];
      assert p + k[..|q|] == p + q <==> k[..|q|] == q by {
        assert (p + k[..|q|])[|p|..] == k[..|q|] && (p + q)[|p|..] == q;
      }
    }
  }

  /** A stored key belongs to one table. */
  lemma TablesApart(t: ByteString, u: ByteString, key: Key)
    requires NulFree(t) && NulFree(u)
    ensures HasPrefix(InternalKey(t, key), TablePrefix(u)) <==> t == u
  {
    var k, p := InternalKey(t, key), TablePrefix(u);
    assert k[|t|] == 0 && forall i | 0 <= i < |t| :: k[i] == t[i] != 0;
    assert p[|u|] == 0 && forall i | 0 <= i < |u| :: p[i] == u[i] != 0;
    if HasPrefix(k, p) {
      assert forall i | 0 <= i < |p| :: k[i] == p[i];
      assert |t| == |u|;
      assert forall i | 0 <= i < |t| :: t[i] == u[i];
    }
  }

  ghost function TableKeys(store: Store, table: ByteString): (r: set<Key>)
    ensures forall k: Key :: k in r <==> InternalKey(table, k) in store
  {
    var r := set ik | ik in store && HasPrefix(ik, TablePrefix(table)) :: ik[|table| + 1..];
    assert forall k: Key :: k in r <==> InternalKey(table, k) in store by {
      forall k: Key | InternalKey(table, k) in store ensures k in r {
        assert HasPrefix(InternalKey(table, k), TablePrefix(table)) && InternalKey(table, k)[|table| + 1..] == k;
      }
      forall ik | ik in store && HasPrefix(ik, TablePrefix(table)) ensures InternalKey(table, ik[|table| + 1..]) == ik {
        assert ik == ik[..|table| + 1] + ik[|table| + 1..];
      }
    }
    r
  }

  /** One table's share of the keyspace. */
  ghost function TableOf(store: Store, table: ByteString): (r: Store) {
    map k | k in TableKeys(store, table) :: store[InternalKey(table, k)]
  }

  lemma TableOfAt(store: Store, table: ByteString)
    ensures forall k: Key :: Find(TableOf(store, table), k) == Find(store, InternalKey(table, k))
  {
  }

  /** What a mutator asks for once it has seen the current item. */
  datatype Mutation = NoWrite | PutItem(item: Item) | DeleteItem

  datatype Outcome = Outcome(applied: bool, previous: Option<Item>)

  // ---- Writes --------------------------------------------------------------------------------------

  datatype Op = PutOp(table: ByteString, key: Key, item: Item) | RemoveOp(table: ByteString,
      key: Key) | DropOp(table: ByteString)

  /** What an operation does to the LSM engine's plain store. */
  ghost function StoreOp(store: Store, op: Op): (r: Store) {
    match op
    case PutOp(t, k, item) => store[InternalKey(t, k) := item]
    case RemoveOp(t, k) => store - {InternalKey(t, k)}
    case DropOp(t) => map k | k in store && !HasPrefix(k, TablePrefix(t)) :: store[k]
  }

  /** What it does to one table. */
  function TableOp(content: Store, op: Op): (r: Store) {
    match op
    case PutOp(_, k, item) => content[k := item]
    case RemoveOp(_, k) => content - {k}
    case DropOp(_) => map[]
  }

  /** An operation changes its own table as on a map of its own, and no other. */
  lemma OpIsolated(store: Store, op: Op, u: ByteString)
    requires NulFree(op.table) && NulFree(u)
    ensures TableOf(StoreOp(store, op), u) == if u == op.table then TableOp(TableOf(store, u), op)
            else TableOf(store, u)
  {
    TableOfAt(store, u);
    TableOfAt(StoreOp(store, op), u);
    hide TableOf;
    var after := if u == op.table then TableOp(TableOf(store, u), op) else TableOf(store, u);
    forall k: Key ensures Find(TableOf(StoreOp(store, op), u), k) == Find(after, k) {
      assert Find(TableOf(StoreOp(store, op), u), k) == Find(StoreOp(store, op), InternalKey(u, k));
      assert Find(TableOf(store, u), k) == Find(store, InternalKey(u, k));
      TablesApart(u, op.table, k);
      if !op.DropOp? {
        KeysApart(u, k, op.table, op.key);
      }
    }
    SameFinds(TableOf(StoreOp(store, op), u), after);
  }

  lemma KeysApart(t: ByteString, k: Key, u: ByteString, l: Key)
    requires NulFree(t) && NulFree(u)
    ensures InternalKey(t, k) == InternalKey(u, l) <==> t == u && k == l
  {
    TablesApart(t, u, k);
    assert HasPrefix(InternalKey(u, l), TablePrefix(u));
    assert InternalKey(t, k)[|t| + 1..] == k && InternalKey(u, l)[|u| + 1..] == l;
  }

  // ---- Reads ---------------------------------------------------------------------------------------

  function Shift(p: ByteString, start: Option<Key>): (r: Option<Key>) {
    match start case None => None case Some(k) => Some(p + k)
  }

  /** Whether a start key fits a prefix does not depend on the table. */
  lemma StartFitsShifts(table: ByteString, kp: ByteString, start: Option<Key>, forward: bool)
    ensures var p := TablePrefix(table); StartFits(p + kp, Shift(p, start), forward) <==> StartFits(kp, start, forward)
  {
    var p := TablePrefix(table);
    if start.Some? {
      if forward {
        assert (p + start.value) + [0] == p + (start.value + [0]);
        LessUnderPrefix(p, kp, start.value + [0]);
        assert p + kp == p + (start.value + [0])
            <==> kp == start.value + [0] by { CancelPrefix(p, kp, start.value + [0]); }
      } else {
        SuccessorShifts(table, kp);
        var up := PrefixSuccessor(kp);
        if up.Some? {
          LessUnderPrefix(p, start.value, up.value);
          CancelPrefix(p, start.value, up.value);
        } else {
          PrefixRange(p, p + start.value);
          assert HasPrefix(p + start.value, p);
          assert PrefixSuccessor(p) == Some(table + [1]) by { assert p[..|p| - 1] == table; }
        }
      }
    }
  }

  lemma CancelPrefix(p: ByteString, a: ByteString, b: ByteString)
    ensures p + a == p + b <==> a == b
  {
    assert (p + a)[|p|..] == a && (p + b)[|p|..] == b;
  }

  lemma {:induction false} SuccessorShifts(table: ByteString, kp: ByteString)
    ensures var up := PrefixSuccessor(kp);
            PrefixSuccessor(TablePrefix(table) + kp)
            == if up.Some? then Some(TablePrefix(table) + up.value) else Some(table + [1])
    decreases |kp|
  {
    var p := TablePrefix(table);
    if kp == [] {
      assert p + kp == p && p[..|p| - 1] == table;
    } else {
      assert (p + kp)[..|p + kp| - 1] == p + kp[..|kp| - 1];
      SuccessorShifts(table, kp[..|kp| - 1]);
      if kp[|kp| - 1] < 255 {
        assert p + kp[..|kp| - 1] + [kp[|kp| - 1] + 1] == p + (kp[..|kp| - 1] + [kp[|kp| - 1] + 1]);
      }
    }
  }

  function ShiftAll(p: ByteString, rows: seq<Pair>): (r: seq<Pair>)
    ensures |r| == |rows| && forall i | 0 <= i < |r| :: r[i] == Pair(p + rows[i].key, rows[i].item)
  {
    seq(|rows|, i requires 0 <= i < |rows| => Pair(p + rows[i].key, rows[i].item))
  }

  lemma ScopeShifts(p: ByteString, k: Key, kp: ByteString, start: Option<Key>, forward: bool)
    ensures InScope(p + k, p + kp, Shift(p, start), forward) <==> InScope(k, kp, start, forward)
  {
    PrefixAppend(p, k, kp);
    if start.Some? {
      LessUnderPrefix(p, start.value, k);
      LessUnderPrefix(p, k, start.value);
    }
  }

  lemma UnderPrefix(x: Key, p: ByteString, q: ByteString)
    requires HasPrefix(x, p + q)
    ensures HasPrefix(x, p) && x == p + x[|p|..]
  {
    assert x[..|p|] == x[..|p + q|][..|p|];
    assert x == x[..|p|] + x[|p|..];
  }

  lemma ShiftSorted(p: ByteString, rows: seq<Pair>, forward: bool)
    requires SortedPairs(rows, forward)
    ensures SortedPairs(ShiftAll(p, rows), forward)
  {
    forall i, j | 0 <= i < j < |rows| ensures Ahead(p + rows[i].key, p + rows[j].key, forward) {
      LessUnderPrefix(p, rows[i].key, rows[j].key);
      LessUnderPrefix(p, rows[j].key, rows[i].key);
    }
  }

  lemma ShiftMember(store: Store, table: ByteString, rows: seq<Pair>, kp: ByteString, start: Option<Key>,
      forward: bool, x: Pair)
    requires Listing(rows, TableOf(store, table), kp, start, forward)
    ensures x in ShiftAll(TablePrefix(table), rows)
       <==> && x.key in store && store[x.key] == x.item
            && InScope(x.key, TablePrefix(table) + kp, Shift(TablePrefix(table), start), forward)
  {
    var p := TablePrefix(table);
    TableOfAt(store, table);
    hide TableOf;
    if x in ShiftAll(p, rows) {
      var i :| 0 <= i < |rows| && ShiftAll(p, rows)[i] == x;
      assert rows[i] in rows;
      ScopeShifts(p, rows[i].key, kp, start, forward);
      assert Find(TableOf(store, table), rows[i].key) == Find(store, InternalKey(table, rows[i].key));
    }
    if x.key in store && store[x.key] == x.item && InScope(x.key, p + kp, Shift(p, start), forward) {
      UnderPrefix(x.key, p, kp);
      var k := x.key[|p|..];
      ScopeShifts(p, k, kp, start, forward);
      assert Find(TableOf(store, table), k) == Find(store, InternalKey(table, k));
      assert Pair(k, x.item) in rows;
      var i :| 0 <= i < |rows| && rows[i] == Pair(k, x.item);
      assert ShiftAll(p, rows)[i] == x;
    }
  }

  /** A prefix query of the keyspace lists the table's own listing. */
  lemma TableListed(store: Store, table: ByteString, kp: ByteString, start: Option<Key>, forward: bool)
    ensures var p := TablePrefix(table);
            Listed(store, p + kp, Shift(p, start), forward)
                == ShiftAll(p, Listed(TableOf(store, table), kp, start, forward))
  {
    hide Listed, InScope, TableOf;
    var p := TablePrefix(table);
    var rows := Listed(TableOf(store, table), kp, start, forward);
    ListedIsListing(TableOf(store, table), kp, start, forward);
    ListedIsListing(store, p + kp, Shift(p, start), forward);
    ShiftSorted(p, rows, forward);
    forall x: Pair ensures x in ShiftAll(p, rows)
       <==> x.key in store && store[x.key] == x.item && InScope(x.key, p + kp, Shift(p, start), forward)
    {
      ShiftMember(store, table, rows, kp, start, forward, x);
    }
    ListingUnique(Listed(store, p + kp, Shift(p, start), forward), ShiftAll(p, rows), store, p + kp, Shift(p, start),
        forward);
  }

  lemma {:induction false} FilterShifts(p: ByteString, rows: seq<Pair>, conditions: Item, binary: bool)
    ensures Filter(ShiftAll(p, rows), conditions, binary) == ShiftAll(p, Filter(rows, conditions, binary))
  {
    if rows != [] {
      FilterShifts(p, rows[1..], conditions, binary);
      assert ShiftAll(p, rows)[1..] == ShiftAll(p, rows[1..]);
    }
  }

  function ShiftPage(p: ByteString, page: Page): (r: Page) {
    page.(last := Shift(p, page.last))
  }

  lemma {:induction false} FillShifts(p: ByteString, rows: seq<Pair>, limit: nat, size: Item -> Size, items: seq<Item>,
                                      bytes: Size, last: Option<Key>)
    ensures Fill(ShiftAll(p, rows), limit, size, items, bytes, Shift(p, last))
         == ShiftPage(p, Fill(rows, limit, size, items, bytes, last))
    decreases |rows|
  {
    if rows != [] {
      assert ShiftAll(p, rows)[1..] == ShiftAll(p, rows[1..]);
      FillShifts(p, rows[1..], limit, size, items + [rows[0].item], SaturatingAdd(bytes, size(rows[0].item)),
          Some(rows[0].key));
    }
  }

  /** The page of a prefix query, its last key cut back to the table's own key, is the page of the table. */
  lemma TablePage(store: Store, table: ByteString, kp: ByteString, start: Option<Key>, forward: bool, conditions: Item,
                  binary: bool, limit: nat, size: Item -> Size)
    ensures var p := TablePrefix(table);
            PageOf(Answer(store, p + kp, Shift(p, start), forward, conditions, binary), limit, size)
            == ShiftPage(p, PageOf(Answer(TableOf(store, table), kp, start, forward, conditions, binary), limit, size))
  {
    hide Listed, TableOf, Filter, Fill;
    var p := TablePrefix(table);
    var rows := Listed(TableOf(store, table), kp, start, forward);
    TableListed(store, table, kp, start, forward);
    FilterShifts(p, rows, conditions, binary);
    FillShifts(p, Filter(rows, conditions, binary), limit, size, [], 0, None);
  }
}
