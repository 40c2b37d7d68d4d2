/**
 Pages of a scan or query: what LsmEngine::scan / query and MemoryEngine::scan / query return, and why the
 pages of a whole read add up to the listing.
 */
module Paging {
  import opened Bytes
  import opened Values
  import opened Layers
  import opened KWayMerge
  import opened MergedReaders
  import opened Listings

  /** kMaxReadPageBytes. */
  const PAGE_BYTES: nat := 1048576

  const SIZE_MAX: nat := 0xFFFF_FFFF_FFFF_FFFF

  /** size_t. */
  type Size = n: nat | n <= SIZE_MAX

  datatype Page = Page(items: seq<Item>, last: Option<Key>)

  function SaturatingAdd(a: Size, b: Size): (r: Size) {
    if SIZE_MAX - a < b then SIZE_MAX else a + b
  }

  /** The test before an item joins a page that already holds `count` items of `bytes` bytes. */
  predicate Fits(count: nat, bytes: Size, itemBytes: Size, limit: nat) {
    || count == 0
    || !((limit != 0 && count == limit) || itemBytes > PAGE_BYTES - (if bytes < PAGE_BYTES then bytes else PAGE_BYTES))
  }

  /** The read loop from some point on. */
  function Fill(rows: seq<Pair>, limit: nat, size: Item -> Size, items: seq<Item>, bytes: Size,
      last: Option<Key>): (p: Page) {
    if rows == [] then Page(items, None)
    else if !Fits(|items|, bytes, size(rows[0].item), limit) then Page(items, last)
    else Fill(rows[1..], limit, size, items + [rows[0].item], SaturatingAdd(bytes, size(rows[0].item)),
        Some(rows[0].key))
  }

  function PageOf(rows: seq<Pair>, limit: nat, size: Item -> Size): (p: Page) {
    Fill(rows, limit, size, [], 0, None)
  }

  // ---- What a page is ------------------------------------------------------------------------------

  function ItemsOf(rows: seq<Pair>): (r: seq<Item>)
    ensures |r| == |rows| && forall i | 0 <= i < |r| :: r[i] == rows[i].item
  {
    seq(|rows|, i requires 0 <= i < |rows| => rows[i].item)
  }

  /** The exact size of a stretch of rows. */
  function Weight(rows: seq<Pair>, size: Item -> Size): (n: nat) {
    if rows == [] then 0 else Weight(rows[..|rows| - 1], size) + size(rows[|rows| - 1].item)
  }

  lemma WeightOneMore(rows: seq<Pair>, n: nat, size: Item -> Size)
    requires n < |rows|
    ensures Weight(rows[..n + 1], size) == Weight(rows[..n], size) + size(rows[n].item)
  {
    assert rows[..n + 1][..n] == rows[..n];
  }

  /** One megabyte, or the first item if that alone is larger. */
  function Budget(rows: seq<Pair>, size: Item -> Size): (n: nat) {
    if rows != [] && size(rows[0].item) > PAGE_BYTES then size(rows[0].item) else PAGE_BYTES
  }

  /** The first n rows make a page: within the limit and the budget, and no longer stretch is. */
  ghost predicate LongestFitting(rows: seq<Pair>, n: nat, limit: nat, size: Item -> Size) {
    && n <= |rows|
    && (rows != [] ==> n > 0)
    && (limit != 0 ==> n <= limit)
    && Weight(rows[..n], size) <= Budget(rows, size)
    && (n < |rows| ==> (limit != 0 && n == limit) || Weight(rows[..n + 1], size) > Budget(rows, size))
  }

  /** After n rows the loop's byte count is their weight, saturated. */
  ghost predicate Counted(rows: seq<Pair>, n: nat, limit: nat, size: Item -> Size, bytes: Size) {
    && 0 < n <= |rows| && (limit != 0 ==> n <= limit)
    && Weight(rows[..n], size) <= Budget(rows, size)
    && size(rows[0].item) <= Weight(rows[..n], size)
    && bytes == Weight(rows[..n], size)
  }

  lemma CountOneMore(rows: seq<Pair>, n: nat, limit: nat, size: Item -> Size, bytes: Size)
    requires n < |rows| && Counted(rows, n, limit, size, bytes)
    ensures Fits(n, bytes, size(rows[n].item), limit)
       <==> !(limit != 0 && n == limit) && Weight(rows[..n + 1], size) <= Budget(rows, size)
    ensures Fits(n, bytes, size(rows[n].item), limit)
        ==> Counted(rows, n + 1, limit, size, SaturatingAdd(bytes, size(rows[n].item)))
  {
    WeightOneMore(rows, n, size);
  }

  ghost predicate IsPage(p: Page, rows: seq<Pair>, n: nat) {
    && 0 <= n <= |rows|
    && p.items == ItemsOf(rows[..n])
    && p.last == if 0 < n < |rows| then Some(rows[n - 1].key) else None
  }

  lemma {:induction false} FillIsPage(rows: seq<Pair>, n: nat, limit: nat, size: Item -> Size,
      bytes: Size) returns (m: nat)
    requires Counted(rows, n, limit, size, bytes)
    ensures n <= m && LongestFitting(rows, m, limit, size)
    ensures IsPage(Fill(rows[n..], limit, size, ItemsOf(rows[..n]), bytes, Some(rows[n - 1].key)), rows, m)
    decreases |rows| - n
  {
    if n == |rows| {
      m := n;
    } else {
      CountOneMore(rows, n, limit, size, bytes);
      hide Weight, Budget, Fits;
      assert rows[n..][0] == rows[n] && rows[n..][1..] == rows[n + 1..];
      if Fits(n, bytes, size(rows[n].item), limit) {
        assert ItemsOf(rows[..n]) + [rows[n].item] == ItemsOf(rows[..n + 1]);
        m := FillIsPage(rows, n + 1, limit, size, SaturatingAdd(bytes, size(rows[n].item)));
      } else {
        m := n;
      }
    }
  }

  /** A page is the longest prefix within the limit and the budget; it names its last key exactly when rows remain. */
  lemma PageIsLongest(rows: seq<Pair>, limit: nat, size: Item -> Size) returns (n: nat)
    ensures LongestFitting(rows, n, limit, size)
    ensures IsPage(PageOf(rows, limit, size), rows, n)
  {
    if rows == [] {
      n := 0;
    } else {
      WeightOneMore(rows, 0, size);
      assert rows[..1] == [rows[0]] && rows[1..][..0] == [];
      assert [] + [rows[0].item] == ItemsOf(rows[..1]);
      n := FillIsPage(rows, 1, limit, size, SaturatingAdd(0, size(rows[0].item)));
    }
  }

  // ---- Key conditions ------------------------------------------------------------------------------

  /** attribute_equals: MemoryEngine compares binary values, LsmEngine does not. */
  predicate AttributeEquals(a: Value, b: Value, binary: bool) {
    match a
    case S(_) => a == b
    case N(_) => a == b
    case B(_) => binary && a == b
    case BOOL(_) => a == b
    case NUL => a == b
    case _ => false
  }

  /** item_matches / item_matches_conditions. */
  predicate Matches(item: Item, conditions: Item, binary: bool) {
    forall name | name in conditions :: name in item && AttributeEquals(item[name], conditions[name], binary)
  }

  predicate Comparable(v: Value) {
    v.S? || v.N? || v.B? || v.BOOL? || v.NUL?
  }

  /** The two engines filter alike exactly when no condition is binary, or some condition can never hold. */
  lemma ConditionsAgreeIff(conditions: Item)
    ensures (forall item: Item :: Matches(item, conditions, true) <==> Matches(item, conditions, false))
       <==> (forall name | name in conditions :: !conditions[name].B?)
            || (exists name :: name in conditions && !Comparable(conditions[name]))
  {
    if exists name :: name in conditions && !Comparable(conditions[name]) {
      forall item: Item ensures !Matches(item, conditions, true) && !Matches(item, conditions, false) {
        var name :| name in conditions && !Comparable(conditions[name]);
        assert name in item ==> !AttributeEquals(item[name], conditions[name], true);
        assert name in item ==> !AttributeEquals(item[name], conditions[name], false);
      }
    } else if name :| name in conditions && conditions[name].B? {
      assert Matches(conditions, conditions, true);
      assert !AttributeEquals(conditions[name], conditions[name], false);
      assert !Matches(conditions, conditions, false);
    }
  }

  /** The rows a query keeps. */
  function Filter(rows: seq<Pair>, conditions: Item, binary: bool): (r: seq<Pair>) {
    if rows == [] then []
    else (if Matches(rows[0].item, conditions, binary) then [rows[0]] else []) + Filter(rows[1..], conditions, binary)
  }

  /**
   `rows` are the pairs of the store with the prefix, past the start key, in key order, whose item has every attribute
   named in the conditions with exactly the value given there, a string, a number, a boolean, null or, for the memory
   engine, bytes.
   */
  ghost predicate Selected(rows: seq<Pair>, store: Store, prefix: ByteString, start: Option<Key>, forward: bool,
                           conditions: Item, binary: bool) {
    && (forall i, j | 0 <= i < j < |rows| ::
          if forward then Less(rows[i].key, rows[j].key) else Less(rows[j].key, rows[i].key))
    && forall p: Pair :: p in rows <==>
         && p.key in store && store[p.key] == p.item && HasPrefix(p.key, prefix)
         && (start.Some? ==> if forward then Less(start.value, p.key) else Less(p.key, start.value))
         && forall name | name in conditions ::
              && name in p.item && p.item[name] == conditions[name]
              && var v := conditions[name]; v.S? || v.N? || v.BOOL? || v.NUL? || (binary && v.B?)
  }

  /** The page is the longest stretch of the selected rows that fits. */
  ghost predicate PageSelects(page: Page, store: Store, prefix: ByteString, start: Option<Key>, forward: bool,
                              conditions: Item, binary: bool, limit: nat, size: Item -> Size) {
    exists rows: seq<Pair>, n: nat ::
      && Selected(rows, store, prefix, start, forward, conditions, binary)
      && LongestFitting(rows, n, limit, size) && IsPage(page, rows, n)
  }

  /** The filter keeps, in their order, exactly the rows whose items meet the conditions. */
  lemma {:induction false} FilterMeans(rows: seq<Pair>, conditions: Item, binary: bool, forward: bool)
    requires SortedPairs(rows, forward)
    ensures SortedPairs(Filter(rows, conditions, binary), forward)
    ensures forall p: Pair :: p in Filter(rows, conditions, binary) <==>
              p in rows && forall name | name in conditions ::
                && name in p.item && p.item[name] == conditions[name]
                && var v := conditions[name]; v.S? || v.N? || v.BOOL? || v.NUL? || (binary && v.B?)
  {
    if rows != [] {
      FilterMeans(rows[1..], conditions, binary, forward);
      var tail := Filter(rows[1..], conditions, binary);
      forall i | 0 <= i < |tail| ensures Ahead(rows[0].key, tail[i].key, forward) {
        assert tail[i] in tail;
      }
      assert rows == [rows[0]] + rows[1..];
    }
  }

  lemma AnswerSelects(store: Store, prefix: ByteString, start: Option<Key>, forward: bool, conditions: Item,
                      binary: bool)
    ensures Selected(Answer(store, prefix, start, forward, conditions, binary), store, prefix, start, forward,
                     conditions, binary)
  {
    hide Listed;
    ListedIsListing(store, prefix, start, forward);
    FilterMeans(Listed(store, prefix, start, forward), conditions, binary, forward);
  }

  /** A page of the answer, described without the filter, the listing or the loop that fills it. */
  lemma AnswerPage(store: Store, prefix: ByteString, start: Option<Key>, forward: bool, conditions: Item, binary: bool,
                   limit: nat, size: Item -> Size)
    ensures PageSelects(PageOf(Answer(store, prefix, start, forward, conditions, binary), limit, size), store, prefix,
                        start, forward, conditions, binary, limit, size)
  {
    hide Answer, PageOf, LongestFitting, IsPage, Selected;
    AnswerSelects(store, prefix, start, forward, conditions, binary);
    var n := PageIsLongest(Answer(store, prefix, start, forward, conditions, binary), limit, size);
  }

  /** An item with the bytes asked for: the memory engine returns it, the LSM engine does not. */
  lemma BinaryConditionDiffers(k: Key)
    ensures var item: Item := map[[97] := B([1])];
            Filter([Pair(k, item)], item, true) == [Pair(k, item)] && Filter([Pair(k, item)], item, false) == []
  {
    var item: Item := map[[97] := B([1])];
    assert [97] in item && item[[97]].B?;
    assert Matches(item, item, true) && !Matches(item, item, false);
  }

  lemma {:induction false} NoConditions(rows: seq<Pair>, binary: bool)
    ensures Filter(rows, map[], binary) == rows
  {
    if rows != [] {
      NoConditions(rows[1..], binary);
      assert rows == [rows[0]] + rows[1..];
    }
  }

  // ---- Resuming ------------------------------------------------------------------------------------

  /** What a read returns in all, from a start key on. */
  function Answer(store: Store, prefix: ByteString, start: Option<Key>, forward: bool, conditions: Item,
      binary: bool): (r: seq<Pair>) {
    Filter(Listed(store, prefix, start, forward), conditions, binary)
  }

  /** The listing from one of its own keys on is the rest of the listing. */
  lemma ListedFrom(store: Store, prefix: ByteString, start: Option<Key>, forward: bool, i: nat)
    requires i < |Listed(store, prefix, start, forward)|
    ensures var rows := Listed(store, prefix, start, forward);
            Listed(store, prefix, Some(rows[i].key), forward) == rows[i + 1..]
  {
    hide Listed;
    var rows := Listed(store, prefix, start, forward);
    ListedIsListing(store, prefix, start, forward);
    ListedIsListing(store, prefix, Some(rows[i].key), forward);
    SuffixLists(rows, store, prefix, start, forward, i);
    ListingUnique(Listed(store, prefix, Some(rows[i].key), forward), rows[i + 1..], store, prefix, Some(rows[i].key),
        forward);
  }

  lemma SuffixLists(rows: seq<Pair>, store: Store, prefix: ByteString, start: Option<Key>, forward: bool, i: nat)
    requires Listing(rows, store, prefix, start, forward) && i < |rows|
    ensures Listing(rows[i + 1..], store, prefix, Some(rows[i].key), forward)
  {
    AheadLaws(forward);
    var k := rows[i].key;
    assert rows[i] in rows;
    forall p: Pair | p in rows[i + 1..]
      ensures p.key in store && store[p.key] == p.item && InScope(p.key, prefix, Some(k), forward)
    {
      var j :| 0 <= j < |rows[i + 1..]| && rows[i + 1..][j] == p;
      assert rows[i + 1 + j] == p && p in rows;
    }
    forall p: Pair | p.key in store && store[p.key] == p.item && InScope(p.key, prefix, Some(k), forward)
      ensures p in rows[i + 1..]
    {
      assert InScope(p.key, prefix, start, forward);
      var j :| 0 <= j < |rows| && rows[j] == p;
      assert Ahead(k, rows[j].key, forward);
      assert j > i;
      assert rows[i + 1..][j - i - 1] == p;
    }
  }

  lemma TailAt<T>(full: seq<T>, tail: seq<T>, used: nat, j: nat)
    requires used <= j < |full| && full[used..] == tail
    ensures j - used < |tail| && tail[j - used] == full[j] && tail[j - used + 1..] == full[j + 1..]
  {
    assert tail[j - used] == full[used..][j - used];
  }

  lemma FilterTail(rows: seq<Pair>, conditions: Item, binary: bool)
    requires rows != []
    ensures var used := if Matches(rows[0].item, conditions, binary) then 1 else 0;
            && used <= |Filter(rows, conditions, binary)|
            && Filter(rows, conditions, binary)[used..] == Filter(rows[1..], conditions, binary)
            && (used == 1 ==> Filter(rows, conditions, binary)[0] == rows[0])
  {
    hide Matches;
  }

  lemma {:induction false} FilterSplits(rows: seq<Pair>, conditions: Item, binary: bool, j: nat) returns (m: nat)
    requires j < |Filter(rows, conditions, binary)|
    ensures m < |rows| && rows[m] == Filter(rows, conditions, binary)[j]
    ensures Filter(rows[m + 1..], conditions, binary) == Filter(rows, conditions, binary)[j + 1..]
  {
    assert rows != [];
    FilterTail(rows, conditions, binary);
    hide Matches, Filter;
    var used := if Matches(rows[0].item, conditions, binary) then 1 else 0;
    if j < used {
      m := 0;
    } else {
      TailAt(Filter(rows, conditions, binary), Filter(rows[1..], conditions, binary), used, j);
      m := FilterSplits(rows[1..], conditions, binary, j - used);
      assert rows[1..][m + 1..] == rows[m + 2..];
      m := m + 1;
    }
  }

  /** Reading on from a page's last key gives exactly the rows the page left. */
  lemma AnswerResumes(store: Store, prefix: ByteString, start: Option<Key>, forward: bool, conditions: Item,
      binary: bool, j: nat)
    requires j < |Answer(store, prefix, start, forward, conditions, binary)|
    ensures var rows := Answer(store, prefix, start, forward, conditions, binary);
            Answer(store, prefix, Some(rows[j].key), forward, conditions, binary) == rows[j + 1..]
  {
    hide Listed;
    var m := FilterSplits(Listed(store, prefix, start, forward), conditions, binary, j);
    ListedFrom(store, prefix, start, forward, m);
  }

  lemma PageResumes(store: Store, prefix: ByteString, start: Option<Key>, forward: bool, conditions: Item, binary: bool,
                    limit: nat, size: Item -> Size)
    ensures var rows := Answer(store, prefix, start, forward, conditions, binary);
            var page := PageOf(rows, limit, size);
            match page.last
            case None => page.items == ItemsOf(rows)
            case Some(k) =>
              var rest := Answer(store, prefix, Some(k), forward, conditions, binary);
              page.items != [] && page.items + ItemsOf(rest) == ItemsOf(rows) && |rest| < |rows|
  {
    hide Answer;
    var rows := Answer(store, prefix, start, forward, conditions, binary);
    var n := PageIsLongest(rows, limit, size);
    if 0 < n < |rows| {
      AnswerResumes(store, prefix, start, forward, conditions, binary, n - 1);
      assert ItemsOf(rows[..n]) + ItemsOf(rows[n..]) == ItemsOf(rows);
    } else {
      assert rows[..n] == rows;
    }
  }

  /** A client reading page after page until no last key is reported. */
  function AllPages(store: Store, prefix: ByteString, start: Option<Key>, forward: bool, conditions: Item, binary: bool,
                    limit: nat, size: Item -> Size): (r: seq<Page>)
    decreases |Answer(store, prefix, start, forward, conditions, binary)|
  {
    hide Answer, PageOf;
    var page := PageOf(Answer(store, prefix, start, forward, conditions, binary), limit, size);
    PageResumes(store, prefix, start, forward, conditions, binary, limit, size);
    if page.last.None? then [page]
    else [page] + AllPages(store, prefix, page.last, forward, conditions, binary, limit, size)
  }

  function Concat(pages: seq<Page>): (r: seq<Item>) {
    if pages == [] then [] else pages[0].items + Concat(pages[1..])
  }

  /** The pages together are the answer: nothing skipped, nothing twice, in order. */
  lemma {:induction false} PagesCover(store: Store, prefix: ByteString, start: Option<Key>, forward: bool,
                                      conditions: Item, binary: bool, limit: nat, size: Item -> Size)
    ensures Concat(AllPages(store, prefix, start, forward, conditions, binary, limit, size))
         == ItemsOf(Answer(store, prefix, start, forward, conditions, binary))
    decreases |Answer(store, prefix, start, forward, conditions, binary)|
  {
    hide Answer, PageOf;
    var page := PageOf(Answer(store, prefix, start, forward, conditions, binary), limit, size);
    PageResumes(store, prefix, start, forward, conditions, binary, limit, size);
    if page.last.Some? {
      PagesCover(store, prefix, page.last, forward, conditions, binary, limit, size);
    }
  }
}
