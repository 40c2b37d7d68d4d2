/** MemoryEngine (src/engine/memory_engine.cpp): one sorted map per table. */
module MemoryEngines {
  import opened Bytes
  import opened Values
  import opened Layers
  import opened KWayMerge
  import opened MergedReaders
  import opened Snapshots
  import opened Listings
  import opened Paging
  import opened EngineReads
  import opened Tables

  type Data = map<ByteString, Store>

  function TableIn(data: Data, table: ByteString): (r: Store) {
    if table in data then data[table] else map[]
  }

  /** A map's items as rows that no layer hides. */
  function ItemLayer(content: Store): (l: Layer) {
    map k | k in content :: Entry(content[k], false)
  }

  /** The rows the iterator of scan or query passes, from its first position to the end of the prefix. */
  function Visited(content: Store, prefix: ByteString, start: Option<Key>, forward: bool): (r: seq<Pair>) {
    LiveRows(Contribution(RowsOf(ItemLayer(content)), prefix, start, forward))
  }

  lemma {:induction false} MergeOne(rows: seq<Row>, forward: bool)
    ensures Merge([rows], forward) == rows
    decreases |rows|
  {
    assert Winner([rows], 0, forward) == None;
    if rows != [] {
      AdvanceAt([rows], rows[0].key);
      assert Advance([rows], rows[0].key) == [rows[1..]];
      MergeOne(rows[1..], forward);
      assert rows == [rows[0]] + rows[1..];
    }
  }

  /** With a start key that fits, the rows visited are the table's listing. */
  lemma VisitedIsListed(content: Store, prefix: ByteString, start: Option<Key>, forward: bool)
    requires StartFits(prefix, start, forward)
    ensures Visited(content, prefix, start, forward) == Listed(content, prefix, start, forward)
  {
    hide Contribution, Merge, LiveRows, Listed, StartFits, RowsOf;
    var l := ItemLayer(content);
    LayersAnswer([l], prefix, start, forward);
    assert RowsOfAll([l]) == [RowsOf(l)];
    assert Contributions([RowsOf(l)], prefix, start, forward) == [Contribution(RowsOf(l), prefix, start, forward)];
    MergeOne(Contribution(RowsOf(l), prefix, start, forward), forward);
    StackOne(l);
    assert Apply(map[], l) == content;
  }

  lemma VisitedStep(c: Cursor, prefix: ByteString, forward: bool)
    ensures InRange(c, prefix) ==>
              Rest(c, prefix, forward) == [c.rows[c.pos]] + Rest(StepCursor(c, forward), prefix, forward)
    ensures !InRange(c, prefix) ==> Rest(c, prefix, forward) == []
  {
  }

  lemma LiveHead(row: Row, rest: seq<Row>)
    requires !row.entry.deleted
    ensures LiveRows([row] + rest) == [Pair(row.key, row.entry.item)] + LiveRows(rest)
  {
    assert ([row] + rest)[1..] == rest;
  }

  lemma ItemRowsLive(content: Store)
    ensures forall i | 0 <= i < |RowsOf(ItemLayer(content))| :: !RowsOf(ItemLayer(content))[i].entry.deleted
  {
    var rows := RowsOf(ItemLayer(content));
    RowsOfIs(ItemLayer(content));
    forall i | 0 <= i < |rows| ensures !rows[i].entry.deleted {
      RowsLayerAt(rows, true, i);
    }
  }

  /** The read loop of scan and query over one map. */
  method ReadMap(content: Store, prefix: ByteString, start: Option<Key>, forward: bool, conditions: Item, limit: nat,
                 size: Item -> Size) returns (page: Page)
    ensures page == PageOf(Filter(Visited(content, prefix, start, forward), conditions, true), limit, size)
    ensures StartFits(prefix, start, forward) ==>
              page == PageOf(Answer(content, prefix, start, forward, conditions, true), limit, size)
  {
    if StartFits(prefix, start, forward) {
      VisitedIsListed(content, prefix, start, forward);
    }
    hide Rest, RowsOf, StartFits, Listed, LiveRows, Filter, Fill, Fits, Matches, StepCursor, InitialCursor;
    var rows := RowsOf(ItemLayer(content));
    ItemRowsLive(content);
    InitialSound(rows, prefix, start, forward);
    NoRows(conditions);
    var c := InitialCursor(rows, prefix, start, forward);
    var items: seq<Item>, bytes: Size, last: Option<Key> := [], 0, None;
    while InRange(c, prefix)
      invariant c.rows == rows && (c.valid ==> c.pos < |rows|)
      invariant Fill(Filter(LiveRows(Rest(c, prefix, forward)), conditions, true), limit, size, items, bytes, last)
             == PageOf(Filter(Visited(content, prefix, start, forward), conditions, true), limit, size)
      decreases |Rest(c, prefix, forward)|
    {
      var row, next := c.rows[c.pos], StepCursor(c, forward);
      VisitedStep(c, prefix, forward);
      StepSound(c, prefix, forward);
      ghost var rest := LiveRows(Rest(next, prefix, forward));
      LiveHead(row, Rest(next, prefix, forward));
      FilterHead(Pair(row.key, row.entry.item), rest, conditions, true);
      if Matches(row.entry.item, conditions, true) {
        FillHead(Pair(row.key, row.entry.item), Filter(rest, conditions, true), limit, size, items, bytes, last);
        if !Fits(|items|, bytes, size(row.entry.item), limit) {
          return Page(items, last);
        }
        items := items + [row.entry.item];
        bytes := SaturatingAdd(bytes, size(row.entry.item));
        last := Some(row.key);
      }
      c := next;
    }
    VisitedStep(c, prefix, forward);
    NothingToFill(limit, size, items, bytes, last, conditions);
    return Page(items, None);
  }

  lemma NoRows(conditions: Item)
    ensures LiveRows([]) == [] && forall binary :: Filter([], conditions, binary) == []
  {
  }

  lemma StepSound(c: Cursor, prefix: ByteString, forward: bool)
    requires InRange(c, prefix)
    ensures StepCursor(c, forward).rows == c.rows
    ensures StepCursor(c, forward).valid ==> StepCursor(c, forward).pos < |c.rows|
  {
  }

  class MemoryEngine {
    var data: Data

    function Table(table: ByteString): (r: Store)
      reads this
    {
      TableIn(data, table)
    }

    constructor ()
      ensures forall t :: Table(t) == map[]
    {
      data := map[];
    }

    method Put(table: ByteString, key: Key, item: Item)
      modifies this
      ensures forall t ::
              Table(t) == if t == table then TableOp(old(Table(t)), PutOp(table, key, item)) else old(Table(t))
    {
      data := data[table := Table(table)[key := item]];
    }

    method Remove(table: ByteString, key: Key)
      modifies this
      ensures forall t :: Table(t) == if t == table then TableOp(old(Table(t)), RemoveOp(table, key)) else old(Table(t))
    {
      if table in data {
        data := data[table := data[table] - {key}];
      }
    }

    method Get(table: ByteString, key: Key) returns (r: Option<Item>)
      ensures r == Find(Table(table), key)
    {
      if table !in data || key !in data[table] {
        return None;
      }
      return Some(data[table][key]);
    }

    method Mutate(table: ByteString, key: Key, mutator: Option<Item> -> Mutation) returns (outcome: Outcome)
      modifies this
      ensures outcome.previous == Find(old(Table(table)), key)
      ensures outcome.applied <==> !mutator(Find(old(Table(table)), key)).NoWrite?
      ensures forall t :: Table(t) == if t != table then old(Table(t)) else
                match mutator(Find(old(Table(t)), key))
                case NoWrite => old(Table(t))
                case PutItem(item) => TableOp(old(Table(t)), PutOp(table, key, item))
                case DeleteItem => TableOp(old(Table(t)), RemoveOp(table, key))
    {
      data := data[table := Table(table)];
      var current := if key in data[table] then Some(data[table][key]) else None;
      var m := mutator(current);
      outcome := Outcome(!m.NoWrite?, current);
      match m {
        case NoWrite =>
        case PutItem(item) =>
          data := data[table := data[table][key := item]];
        case DeleteItem =>
          data := data[table := data[table] - {key}];
      }
    }

    method DropTable(table: ByteString)
      modifies this
      ensures forall t :: Table(t) == if t == table then TableOp(old(Table(t)), DropOp(table)) else old(Table(t))
    {
      data := data - {table};
    }

    method Scan(table: ByteString, start: Option<Key>, limit: nat, size: Item -> Size) returns (page: Page)
      ensures page == PageOf(Listed(Table(table), [], start, true), limit, size)
      ensures PageSelects(page, Table(table), [], start, true, map[], true, limit, size)
    {
      AnswerPage(Table(table), [], start, true, map[], true, limit, size);
      FitsEverywhere(start);
      NoConditions(Listed(Table(table), [], start, true), true);
      page := ReadMap(Table(table), [], start, true, map[], limit, size);
    }

    method Query(table: ByteString, conditions: Item, start: Option<Key>, limit: nat, prefix: Option<ByteString>,
                 forward: bool, size: Item -> Size) returns (page: Page)
      ensures var kp := if prefix.Some? then prefix.value else [];
              && page == PageOf(Filter(Visited(Table(table), kp, start, forward), conditions, true), limit, size)
              && (StartFits(kp, start, forward) ==>
                    && page == PageOf(Answer(Table(table), kp, start, forward, conditions, true), limit, size)
                    && PageSelects(page, Table(table), kp, start, forward, conditions, true, limit, size))
    {
      hide StartFits, PageSelects, Answer, PageOf, Filter, Visited;
      var kp := if prefix.Some? then prefix.value else [];
      AnswerPage(Table(table), kp, start, forward, conditions, true, limit, size);
      page := ReadMap(Table(table), kp, start, forward, conditions, limit, size);
    }
  }
}
