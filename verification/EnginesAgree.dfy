/** The LSM engine and the memory engine, driven side by side (include/cynamodb/engine/storage_engine.hpp). */
module EnginesAgree {
  import opened Bytes
  import opened Values
  import opened Layers
  import opened Memtables
  import opened Manifests
  import opened LsmStates
  import opened LsmInvariants
  import opened LsmTheorems
  import opened MergedReaders
  import opened Listings
  import opened Paging
  import opened Tables
  import opened MemoryEngines
  import opened LsmEngines

  // ---- Writing to both -----------------------------------------------------------------------------

  datatype Call =
    | PutCall(table: ByteString, key: Key, item: Item)
    | RemoveCall(table: ByteString, key: Key)
    | DropCall(table: ByteString)
    | MutateCall(table: ByteString, key: Key, mutator: Option<Item> -> Mutation)

  ghost predicate SameTables(lsm: LsmEngine, mem: MemoryEngine)
    reads lsm, mem
  {
    forall t | NulFree(t) :: TableOf(lsm.Store(), t) == mem.Table(t)
  }

  /** The operation a call comes to, once a mutator has seen the current item; None if it writes nothing. */
  function OpOf(c: Call, current: Option<Item>): (r: Option<Op>) {
    match c
    case PutCall(t, k, item) => Some(PutOp(t, k, item))
    case RemoveCall(t, k) => Some(RemoveOp(t, k))
    case DropCall(t) => Some(DropOp(t))
    case MutateCall(t, k, mutator) =>
      match mutator(current)
      case NoWrite => None
      case PutItem(item) => Some(PutOp(t, k, item))
      case DeleteItem => Some(RemoveOp(t, k))
  }

  lemma OpKeepsTables(store: Store, op: Option<Op>, table: ByteString, t: ByteString)
    requires NulFree(table) && NulFree(t) && (op.Some? ==> op.value.table == table)
    ensures TableOf(if op.None? then store else StoreOp(store, op.value), t)
         == if op.None? || t != table then TableOf(store, t) else TableOp(TableOf(store, t), op.value)
  {
    hide TableOf, StoreOp, TableOp;
    if op.Some? {
      OpIsolated(store, op.value, t);
    }
  }

  lemma MutatesAs(store: Store, t: ByteString, k: Key, m: Mutation)
    ensures Spec(store, WritesOf(InternalKey(t, k), m)) ==
            match m
            case NoWrite => store
            case PutItem(item) => StoreOp(store, PutOp(t, k, item))
            case DeleteItem => StoreOp(store, RemoveOp(t, k))
  {
    hide Spec;
    NoMoreSpec(store, []);
    match m
    case NoWrite =>
    case PutItem(item) => OneSpec(store, Write.Put(InternalKey(t, k), item));
    case DeleteItem => OneSpec(store, Del(InternalKey(t, k)));
  }

  /** The key, with its table's name, is one that a memtable takes. */
  predicate KeyFits(c: Call) {
    c.DropCall? || ValidKey(InternalKey(c.table, c.key))
  }

  /** The call on the LSM engine is its operation on the plain store. */
  method CallLsm(lsm: LsmEngine, c: Call) returns (ghost op: Option<Op>)
    requires lsm.Valid() && KeyFits(c)
    modifies lsm
    ensures lsm.Valid()
    ensures op == OpOf(c, if c.MutateCall? then Find(TableOf(old(lsm.Store()), c.table), c.key) else None)
    ensures lsm.Store() == if op.None? then old(lsm.Store()) else StoreOp(old(lsm.Store()), op.value)
  {
    hide TableOf, StoreOp, Spec, Live, ValidKey, ValidKeys, InternalKey;
    op := OpOf(c, if c.MutateCall? then Find(TableOf(lsm.Store(), c.table), c.key) else None);
    match c {
      case PutCall(t, k, item) => lsm.Put(t, k, item);
      case RemoveCall(t, k) => lsm.Remove(t, k);
      case DropCall(t) => lsm.Drop(t);
      case MutateCall(t, k, mutator) =>
        TableOfAt(lsm.Store(), t);
        MutatesAs(lsm.Store(), t, k, mutator(Find(lsm.Store(), InternalKey(t, k))));
        var outcome := lsm.Mutate(InternalKey(t, k), mutator);
    }
  }

  /** The call on the memory engine is the same operation on its own table. */
  method CallMemory(mem: MemoryEngine, c: Call) returns (ghost op: Option<Op>)
    modifies mem
    ensures op == OpOf(c, if c.MutateCall? then Find(old(mem.Table(c.table)), c.key) else None)
    ensures forall t ::
            mem.Table(t) == if op.None? || t != c.table then old(mem.Table(t)) else TableOp(old(mem.Table(t)), op.value)
  {
    op := OpOf(c, if c.MutateCall? then Find(mem.Table(c.table), c.key) else None);
    match c {
      case PutCall(t, k, item) => mem.Put(t, k, item);
      case RemoveCall(t, k) => mem.Remove(t, k);
      case DropCall(t) => mem.DropTable(t);
      case MutateCall(t, k, mutator) => var outcome := mem.Mutate(t, k, mutator);
    }
  }

  /** Engines with the same tables still have the same tables after the same call, mutators included. */
  method CallBoth(lsm: LsmEngine, mem: MemoryEngine, c: Call)
    requires lsm.Valid() && SameTables(lsm, mem) && NulFree(c.table) && KeyFits(c)
    modifies lsm, mem
    ensures lsm.Valid() && SameTables(lsm, mem)
  {
    hide TableOf, StoreOp, TableOp, OpOf, Find, NulFree, Spec, Live, KeyFits, ValidKeys;
    ghost var store := lsm.Store();
    assert TableOf(store, c.table) == mem.Table(c.table);
    ghost var a := CallLsm(lsm, c);
    ghost var b := CallMemory(mem, c);
    OpIsCalls(c, if c.MutateCall? then Find(TableOf(store, c.table), c.key) else None);
    forall t | NulFree(t) ensures TableOf(lsm.Store(), t) == mem.Table(t) {
      OpKeepsTables(store, a, c.table, t);
    }
  }

  lemma OpIsCalls(c: Call, current: Option<Item>)
    ensures OpOf(c, current).Some? ==> OpOf(c, current).value.table == c.table
  {
  }

  // ---- Reading from both ---------------------------------------------------------------------------

  /** Conditions that both engines compare alike. */
  ghost predicate ComparedAlike(conditions: Item) {
    || (forall name | name in conditions :: !conditions[name].B?)
    || (exists name :: name in conditions && !Comparable(conditions[name]))
  }

  lemma {:induction false} SameFilter(rows: seq<Pair>, conditions: Item)
    requires ComparedAlike(conditions)
    ensures Filter(rows, conditions, true) == Filter(rows, conditions, false)
  {
    if rows != [] {
      ConditionsAgreeIff(conditions);
      assert Matches(rows[0].item, conditions, true) <==> Matches(rows[0].item, conditions, false);
      SameFilter(rows[1..], conditions);
    }
  }

  /** The same query on both engines returns the same items and the same last key. */
  method QueryBoth(lsm: LsmEngine, mem: MemoryEngine, table: ByteString, conditions: Item, start: Option<Key>,
                   limit: nat, prefix: Option<ByteString>, forward: bool, size: Item -> Size) returns (a: Page, b: Page)
    requires lsm.Valid() && SameTables(lsm, mem) && NulFree(table)
    requires StartFits(if prefix.Some? then prefix.value else [], start, forward) && ComparedAlike(conditions)
    ensures a == b
  {
    hide TableOf, PageOf, Listed, StartFits, Filter, NulFree, ComparedAlike, Visited, Offered, Live, Spec;
    ghost var kp: ByteString := if prefix.Some? then prefix.value else [];
    assert TableOf(lsm.Store(), table) == mem.Table(table);
    a := lsm.Query(table, conditions, start, limit, prefix, forward, size);
    b := mem.Query(table, conditions, start, limit, prefix, forward, size);
    SameFilter(Listed(mem.Table(table), kp, start, forward), conditions);
  }

  /** And so does the same scan. */
  method ScanBoth(lsm: LsmEngine, mem: MemoryEngine, table: ByteString, start: Option<Key>, limit: nat,
      size: Item -> Size)
    returns (a: Page, b: Page)
    requires lsm.Valid() && SameTables(lsm, mem) && NulFree(table)
    ensures a == b
  {
    hide TableOf, PageOf, Listed, NulFree, Live, Spec;
    assert TableOf(lsm.Store(), table) == mem.Table(table);
    a := lsm.Scan(table, start, limit, size);
    b := mem.Scan(table, start, limit, size);
  }

  method GetBoth(lsm: LsmEngine, mem: MemoryEngine, table: ByteString, key: Key)
    returns (a: Option<Item>, b: Option<Item>)
    requires lsm.Valid() && SameTables(lsm, mem) && NulFree(table)
    ensures a == b
  {
    hide TableOf, NulFree, Live, Spec;
    assert TableOf(lsm.Store(), table) == mem.Table(table);
    a := lsm.Get(table, key);
    b := mem.Get(table, key);
  }

  // ---- From new engines on -------------------------------------------------------------------------

  lemma EmptyTable(t: ByteString)
    ensures TableOf(map[], t) == map[]
  {
  }

  /** Two new engines, driven by any calls, answer every query alike. */
  method AnswerAlike(calls: seq<Call>, table: ByteString, conditions: Item, start: Option<Key>, limit: nat,
                     prefix: Option<ByteString>, forward: bool, size: Item -> Size) returns (a: Page, b: Page)
    requires NulFree(table) && forall i | 0 <= i < |calls| :: NulFree(calls[i].table) && KeyFits(calls[i])
    requires StartFits(if prefix.Some? then prefix.value else [], start, forward) && ComparedAlike(conditions)
    ensures a == b
  {
    hide Live, Inv, Spec, TableOf, NulFree, StartFits, ComparedAlike, Run, KeyFits;
    NewDirectory();
    var lsm := new LsmEngine(map[], Manifest(0, map[]), map[], [], [], 0);
    var mem := new MemoryEngine();
    forall t | NulFree(t) ensures TableOf(lsm.Store(), t) == mem.Table(t) {
      EmptyTable(t);
      NoMoreSpec(map[], []);
    }
    for i := 0 to |calls|
      invariant lsm.Valid() && SameTables(lsm, mem) && fresh(lsm) && fresh(mem)
    {
      CallBoth(lsm, mem, calls[i]);
    }
    a, b := QueryBoth(lsm, mem, table, conditions, start, limit, prefix, forward, size);
  }

  lemma NewDirectory()
    ensures SortedGens([], map[]) && Inv(State(Disk(map[], Manifest(0, map[]), map[]), Down, [], 0, 0, 0))
    ensures Replay(map[]) == map[] && Holdable(map[]) && ValidKeys([])
  {
    InitiallyHolds();
  }

  /** A put of a very long key succeeds in both engines; one of them has the item afterwards. */
  method LongKeyDiffers(table: ByteString, key: Key, item: Item) returns (a: Option<Item>, b: Option<Item>)
    requires !ValidKey(InternalKey(table, key))
    ensures a == None && b == Some(item)
  {
    hide Live, Inv, Spec, Run, ValidKey;
    NewDirectory();
    NoMoreSpec(map[], []);
    var lsm := new LsmEngine(map[], Manifest(0, map[]), map[], [], [], 0);
    var mem := new MemoryEngine();
    FoundWhenLive(lsm.View(), InternalKey(table, key));
    lsm.Put(table, key, item);
    mem.Put(table, key, item);
    a := lsm.GetLocked(InternalKey(table, key));
    b := mem.Get(table, key);
  }

  // ---- Page after page -----------------------------------------------------------------------------

  /** The last key of a page has the prefix, so it fits as the next start key. */
  lemma LastKeyFits(store: Store, prefix: ByteString, start: Option<Key>, forward: bool, conditions: Item, binary: bool,
                    limit: nat, size: Item -> Size)
    ensures var page := PageOf(Answer(store, prefix, start, forward, conditions, binary), limit, size);
            page.last.Some? ==> StartFits(prefix, page.last, forward)
  {
    hide PageOf, Listed, StartFits, Filter;
    var rows := Answer(store, prefix, start, forward, conditions, binary);
    var n := PageIsLongest(rows, limit, size);
    if 0 < n < |rows| {
      var m := FilterSplits(Listed(store, prefix, start, forward), conditions, binary, n - 1);
      ListedIsListing(store, prefix, start, forward);
      var p := Listed(store, prefix, start, forward)[m];
      assert p in Listed(store, prefix, start, forward);
      PrefixedStartFits(prefix, p.key, forward);
    }
  }

  /** Querying on from each last key until there is none ends, and returns the whole answer. */
  method EveryPage(lsm: LsmEngine, table: ByteString, conditions: Item, start: Option<Key>, limit: nat,
                   prefix: Option<ByteString>, forward: bool, size: Item -> Size) returns (items: seq<Item>)
    requires lsm.Valid() && StartFits(if prefix.Some? then prefix.value else [], start, forward)
    ensures var kp := if prefix.Some? then prefix.value else [];
            && items == ItemsOf(Answer(TableOf(lsm.Store(), table), kp, start, forward, conditions, false))
            && exists rows: seq<Pair> ::
                 && Selected(rows, TableOf(lsm.Store(), table), kp, start, forward, conditions, false)
                 && items == ItemsOf(rows)
  {
    hide TableOf, PageOf, Answer, StartFits, Offered, Filter, Live, Spec, ItemsOf, PageSelects, Selected;
    ghost var store, kp: ByteString := TableOf(lsm.Store(), table), if prefix.Some? then prefix.value else [];
    AnswerSelects(store, kp, start, forward, conditions, false);
    ghost var all := ItemsOf(Answer(store, kp, start, forward, conditions, false));
    items := [];
    assert [] + all == all;
    var cursor, more := start, true;
    while more
      invariant StartFits(kp, cursor, forward)
      invariant if more then items + ItemsOf(Answer(store, kp, cursor, forward, conditions, false)) == all
                else items == all
      decreases more, |Answer(store, kp, cursor, forward, conditions, false)|
    {
      PageResumes(store, kp, cursor, forward, conditions, false, limit, size);
      LastKeyFits(store, kp, cursor, forward, conditions, false, limit, size);
      var page := lsm.Query(table, conditions, cursor, limit, prefix, forward, size);
      ghost var left := ItemsOf(Answer(store, kp, cursor, forward, conditions, false));
      ghost var rest := if page.last.Some? then ItemsOf(Answer(store, kp, page.last, forward, conditions, false))
          else [];
      assert items + left == (items + page.items) + rest;
      items := items + page.items;
      if page.last.None? {
        more := false;
      } else {
        cursor := page.last;
      }
    }
  }
}
