/**
 Secondary indexes (src/api/handlers.cpp): the index helpers, maintain_indexes, and the write handlers that
 call it.  Every handler stores or removes one item under its encoded key and then passes the item's old and
 new images to maintain_indexes; conditions and update expressions only decide what the new image is.
 */
module Indexes {
  import opened Bytes
  import opened Values
  import opened Layers
  import opened KeyCodec

  datatype Projection = All | KeysOnly | Include(names: seq<ByteString>)

  datatype IndexSpec = IndexSpec(name: ByteString, keys: seq<ByteString>, projection: Projection)

  datatype TableDef = TableDef(keys: seq<ByteString>, indexes: seq<IndexSpec>)

  /** A table's items by primary key, and each index's entries by index key. */
  datatype Db = Db(base: Store, stores: map<ByteString, Store>)

  type ToBits = ByteString -> Bits

  // ---- The helpers ---------------------------------------------------------------------------------

  /** encode_index_storage_key: the index key, then the base key. */
  function IndexKey(idx: IndexSpec, def: TableDef, item: Item, toBits: ToBits): (k: Key) {
    PrimaryKey(idx.keys + def.keys, item, toBits)
  }

  predicate InIndex(idx: IndexSpec, item: Item) {
    forall i | 0 <= i < |idx.keys| :: idx.keys[i] in item
  }

  /** project_for_index; a sparse index leaves out items without its key. */
  function Project(idx: IndexSpec, def: TableDef, item: Item): (r: Option<Item>) {
    if !InIndex(idx, item) then None
    else match idx.projection
      case All => Some(item)
      case KeysOnly => Some(Only(item, def.keys + idx.keys))
      case Include(names) => Some(Only(item, def.keys + idx.keys + names))
  }

  /** maintain_indexes on one index's entries. */
  function MaintainOne(entries: Store, idx: IndexSpec, def: TableDef, before: Option<Item>, after: Option<Item>,
      toBits: ToBits): (r: Store) {
    var cleared := if before.Some? && InIndex(idx, before.value) then
        entries - {IndexKey(idx, def, before.value, toBits)} else entries;
    if after.Some? && InIndex(idx, after.value)
    then cleared[IndexKey(idx, def, after.value, toBits) := Project(idx, def, after.value).value]
    else cleared
  }

  // ---- What an index should hold -------------------------------------------------------------------

  /** Every item is stored under its own key. */
  ghost predicate WellKeyed(base: Store, def: TableDef, toBits: ToBits) {
    forall k | k in base :: PrimaryKey(def.keys, base[k], toBits) == k
  }

  /** What an entry shows of an item: everything, or the key attributes of table and index and those named. */
  ghost predicate Shows(entry: Item, item: Item, idx: IndexSpec, def: TableDef) {
    forall n: ByteString ::
      && (n in entry <==>
            && n in item
            && (|| idx.projection.All? || n in def.keys || n in idx.keys
                || (idx.projection.Include? && n in idx.projection.names)))
      && (n in entry ==> entry[n] == item[n])
  }

  /**
   `entries` holds, under the index key followed by the table key, what is to be shown of each item that has every
   attribute of the index key, and nothing else.
   */
  ghost predicate IsImage(entries: Store, idx: IndexSpec, def: TableDef, base: Store, toBits: ToBits) {
    && (forall k | k in base && (forall i | 0 <= i < |idx.keys| :: idx.keys[i] in base[k]) ::
          && PrimaryKey(idx.keys + def.keys, base[k], toBits) in entries
          && Shows(entries[PrimaryKey(idx.keys + def.keys, base[k], toBits)], base[k], idx, def))
    && (forall e | e in entries ::
          exists k :: && k in base && (forall i | 0 <= i < |idx.keys| :: idx.keys[i] in base[k])
                      && PrimaryKey(idx.keys + def.keys, base[k], toBits) == e)
  }

  /** The projection is the one entry that shows what it should. */
  lemma ProjectShows(idx: IndexSpec, def: TableDef, item: Item)
    ensures InIndex(idx, item) <==> Project(idx, def, item).Some?
    ensures InIndex(idx, item) ==>
              forall entry: Item :: Shows(entry, item, idx, def) <==> Project(idx, def, item) == Some(entry)
  {
    if InIndex(idx, item) {
      var r := Project(idx, def, item).value;
      assert Shows(r, item, idx, def);
      forall entry: Item | Shows(entry, item, idx, def) ensures entry == r {
        assert forall n :: n in entry <==> n in r;
      }
    }
  }

  /** Items with different base keys never share an index key. */
  lemma IndexKeysApart(idx: IndexSpec, def: TableDef, a: Item, b: Item, toBits: ToBits)
    requires IndexKey(idx, def, a, toBits) == IndexKey(idx, def, b, toBits)
    ensures PrimaryKey(def.keys, a, toBits) == PrimaryKey(def.keys, b, toBits)
  {
    SamePartsIff(idx.keys + def.keys, a, b, toBits);
    SamePartsIff(def.keys, a, b, toBits);
    forall i | 0 <= i < |def.keys|
      ensures PartOf(KeyCodec.Find(a, def.keys[i]), toBits) == PartOf(KeyCodec.Find(b, def.keys[i]), toBits)
    {
      assert (idx.keys + def.keys)[|idx.keys| + i] == def.keys[i];
    }
  }

  // ---- One write -----------------------------------------------------------------------------------

  function Stored(base: Store, key: Key, after: Option<Item>): (r: Store) {
    match after case None => base - {key} case Some(item) => base[key := item]
  }

  /** Every item that has the index's attributes is stored under its own key. */
  ghost predicate KeyedIn(base: Store, idx: IndexSpec, def: TableDef, toBits: ToBits) {
    forall k | k in base && InIndex(idx, base[k]) :: PrimaryKey(def.keys, base[k], toBits) == k
  }

  /** Storing the item under `key` overwrites the different entry of the item that its own key belongs to. */
  predicate Clashes(idx: IndexSpec, def: TableDef, base: Store, key: Key, item: Item, toBits: ToBits) {
    var own := PrimaryKey(def.keys, item, toBits);
    && InIndex(idx, item) && own != key && own in base && InIndex(idx, base[own])
    && IndexKey(idx, def, base[own], toBits) == IndexKey(idx, def, item, toBits)
    && Project(idx, def, base[own]) != Project(idx, def, item)
  }

  /** One write keeps an index the image of the table exactly when it does not clash with another item. */
  lemma WriteImageIff(entries: Store, idx: IndexSpec, def: TableDef, base: Store, key: Key, after: Option<Item>,
                      toBits: ToBits)
    requires KeyedIn(base, idx, def, toBits) && IsImage(entries, idx, def, base, toBits)
    ensures IsImage(MaintainOne(entries, idx, def, Layers.Find(base, key), after, toBits), idx, def,
                    Stored(base, key, after), toBits)
       <==> !(after.Some? && Clashes(idx, def, base, key, after.value, toBits))
  {
    hide PrimaryKey, Project, InIndex, IndexKey, IsImage, KeyedIn, Clashes;
    if after.Some? && Clashes(idx, def, base, key, after.value, toBits) {
      ClashBreaks(entries, idx, def, base, key, after.value, toBits);
    } else {
      NoClashKeeps(entries, idx, def, base, key, after, toBits);
    }
  }

  lemma ClashBreaks(entries: Store, idx: IndexSpec, def: TableDef, base: Store, key: Key, item: Item, toBits: ToBits)
    requires Clashes(idx, def, base, key, item, toBits)
    ensures !IsImage(MaintainOne(entries, idx, def, Layers.Find(base, key), Some(item), toBits), idx, def,
                     Stored(base, key, Some(item)), toBits)
  {
    hide PrimaryKey, Project, Shows;
    ProjectShows(idx, def, item);
    var own := PrimaryKey(def.keys, item, toBits);
    ProjectShows(idx, def, base[own]);
    assert Stored(base, key, Some(item))[own] == base[own];
  }

  lemma NoClashKeeps(entries: Store, idx: IndexSpec, def: TableDef, base: Store, key: Key, after: Option<Item>,
                     toBits: ToBits)
    requires KeyedIn(base, idx, def, toBits) && IsImage(entries, idx, def, base, toBits)
    requires !(after.Some? && Clashes(idx, def, base, key, after.value, toBits))
    ensures IsImage(MaintainOne(entries, idx, def, Layers.Find(base, key), after, toBits), idx, def,
                    Stored(base, key, after), toBits)
  {
    var base' := Stored(base, key, after);
    var entries' := MaintainOne(entries, idx, def, Layers.Find(base, key), after, toBits);
    hide PrimaryKey, Project, Shows, Stored, MaintainOne, KeyedIn, Clashes;
    forall k | k in base' && (forall i | 0 <= i < |idx.keys| :: idx.keys[i] in base'[k])
      ensures PrimaryKey(idx.keys + def.keys, base'[k], toBits) in entries'
           && Shows(entries'[PrimaryKey(idx.keys + def.keys, base'[k], toBits)], base'[k], idx, def)
    {
      assert InIndex(idx, base'[k]) && IndexKey(idx, def, base'[k], toBits)
             == PrimaryKey(idx.keys + def.keys, base'[k], toBits);
      EntryKept(entries, idx, def, base, key, after, k, toBits);
    }
    forall e | e in entries'
      ensures exists k :: && k in base' && (forall i | 0 <= i < |idx.keys| :: idx.keys[i] in base'[k])
                          && PrimaryKey(idx.keys + def.keys, base'[k], toBits) == e
    {
      var k := EntryHasItem(entries, idx, def, base, key, after, e, toBits);
    }
  }

  /** Every item stored after the write has its entry. */
  lemma EntryKept(entries: Store, idx: IndexSpec, def: TableDef, base: Store, key: Key, after: Option<Item>, k: Key,
                  toBits: ToBits)
    requires KeyedIn(base, idx, def, toBits) && IsImage(entries, idx, def, base, toBits)
    requires !(after.Some? && Clashes(idx, def, base, key, after.value, toBits))
    requires k in Stored(base, key, after) && InIndex(idx, Stored(base, key, after)[k])
    ensures var item := Stored(base, key, after)[k];
            var entries' := MaintainOne(entries, idx, def, Layers.Find(base, key), after, toBits);
            && IndexKey(idx, def, item, toBits) in entries'
            && Shows(entries'[IndexKey(idx, def, item, toBits)], item, idx, def)
  {
    hide PrimaryKey, Project, Shows, IsImage, InIndex, IndexKey, Clashes, KeyedIn;
    ProjectShows(idx, def, Stored(base, key, after)[k]);
    if k != key {
      OthersApart(idx, def, base, key, after, k, toBits);
      EntryInImage(entries, idx, def, base, k, toBits);
    }
  }

  lemma EntryInImage(entries: Store, idx: IndexSpec, def: TableDef, base: Store, k: Key, toBits: ToBits)
    requires IsImage(entries, idx, def, base, toBits) && k in base && InIndex(idx, base[k])
    ensures IndexKey(idx, def, base[k], toBits) in entries
    ensures Shows(entries[IndexKey(idx, def, base[k], toBits)], base[k], idx, def)
  {
    hide PrimaryKey, Shows;
  }

  /** Every entry after the write is that of a stored item. */
  lemma EntryHasItem(entries: Store, idx: IndexSpec, def: TableDef, base: Store, key: Key, after: Option<Item>, e: Key,
                     toBits: ToBits) returns (k: Key)
    requires IsImage(entries, idx, def, base, toBits)
    requires e in MaintainOne(entries, idx, def, Layers.Find(base, key), after, toBits)
    ensures k in Stored(base, key, after) && InIndex(idx, Stored(base, key, after)[k])
    ensures IndexKey(idx, def, Stored(base, key, after)[k], toBits) == e
  {
    hide PrimaryKey, Project, Shows;
    if after.Some? && InIndex(idx, after.value) && e == IndexKey(idx, def, after.value, toBits) {
      k := key;
    } else {
      k :| k in base && InIndex(idx, base[k]) && IndexKey(idx, def, base[k], toBits) == e;
    }
  }

  /** Another stored item shares its index key with neither the old item nor, but for a clash, the new one. */
  lemma OthersApart(idx: IndexSpec, def: TableDef, base: Store, key: Key, after: Option<Item>, k: Key, toBits: ToBits)
    requires KeyedIn(base, idx, def, toBits) && k in base && InIndex(idx, base[k]) && k != key
    requires !(after.Some? && Clashes(idx, def, base, key, after.value, toBits))
    ensures key in base && InIndex(idx, base[key]) ==>
              IndexKey(idx, def, base[k], toBits) != IndexKey(idx, def, base[key], toBits)
    ensures (after.Some? && InIndex(idx, after.value)
             && IndexKey(idx, def, base[k], toBits) == IndexKey(idx, def, after.value, toBits)) ==>
              Project(idx, def, base[k]) == Project(idx, def, after.value)
  {
    hide PrimaryKey, Project, InIndex, IndexKey;
    if key in base && InIndex(idx, base[key])
       && IndexKey(idx, def, base[k], toBits) == IndexKey(idx, def, base[key], toBits) {
      IndexKeysApart(idx, def, base[k], base[key], toBits);
    }
    if after.Some? && IndexKey(idx, def, base[k], toBits) == IndexKey(idx, def, after.value, toBits) {
      IndexKeysApart(idx, def, base[k], after.value, toBits);
    }
  }

  /** In particular a write that stores an item under its own key. */
  lemma ImageKeeps(entries: Store, idx: IndexSpec, def: TableDef, base: Store, key: Key, after: Option<Item>,
      toBits: ToBits)
    requires KeyedIn(base, idx, def, toBits) && IsImage(entries, idx, def, base, toBits)
    requires after.Some? && InIndex(idx, after.value) ==> PrimaryKey(def.keys, after.value, toBits) == key
    ensures IsImage(MaintainOne(entries, idx, def, Layers.Find(base, key), after, toBits), idx, def,
                    Stored(base, key, after), toBits)
  {
    hide PrimaryKey, Project, InIndex, IndexKey, IsImage, MaintainOne;
    WriteImageIff(entries, idx, def, base, key, after, toBits);
  }

  // ---- All indexes of a table ----------------------------------------------------------------------

  function EntriesOf(stores: map<ByteString, Store>, name: ByteString): (r: Store) {
    if name in stores then stores[name] else map[]
  }

  function Maintain(stores: map<ByteString, Store>, indexes: seq<IndexSpec>, def: TableDef, before: Option<Item>,
                    after: Option<Item>, toBits: ToBits): (r: map<ByteString, Store>) {
    if indexes == [] then stores
    else
      var idx := indexes[|indexes| - 1];
      var others := Maintain(stores, indexes[..|indexes| - 1], def, before, after, toBits);
      others[idx.name := MaintainOne(EntriesOf(others, idx.name), idx, def, before, after, toBits)]
  }

  ghost predicate DistinctNames(indexes: seq<IndexSpec>) {
    forall i, j | 0 <= i < j < |indexes| :: indexes[i].name != indexes[j].name
  }

  /** Each index is maintained by itself. */
  lemma {:induction false} MaintainAt(stores: map<ByteString, Store>, indexes: seq<IndexSpec>, def: TableDef,
                                      before: Option<Item>, after: Option<Item>, toBits: ToBits)
    requires DistinctNames(indexes)
    ensures var r := Maintain(stores, indexes, def, before, after, toBits);
            && (forall i | 0 <= i < |indexes| ::
                 EntriesOf(r, indexes[i].name)
                     == MaintainOne(EntriesOf(stores, indexes[i].name), indexes[i], def, before, after, toBits))
            && (forall name | (forall i | 0 <= i < |indexes| :: indexes[i].name != name) ::
                EntriesOf(r, name) == EntriesOf(stores, name))
  {
    hide MaintainOne, EntriesOf;
    if indexes != [] {
      var init, idx := indexes[..|indexes| - 1], indexes[|indexes| - 1];
      assert forall i | 0 <= i < |init| :: init[i] == indexes[i];
      MaintainAt(stores, init, def, before, after, toBits);
      var others := Maintain(stores, init, def, before, after, toBits);
      EntriesSet(others, idx.name, MaintainOne(EntriesOf(others, idx.name), idx, def, before, after, toBits));
    }
  }

  lemma EntriesSet(stores: map<ByteString, Store>, name: ByteString, entries: Store)
    ensures forall other :: EntriesOf(stores[name := entries], other)
                            == if other == name then entries else EntriesOf(stores, other)
  {
  }

  /** One index of the database is the image of the table. */
  ghost predicate ImageAt(db: Db, def: TableDef, i: nat, toBits: ToBits)
    requires i < |def.indexes|
  {
    IsImage(EntriesOf(db.stores, def.indexes[i].name), def.indexes[i], def, db.base, toBits)
  }

  ghost predicate Images(db: Db, def: TableDef, toBits: ToBits) {
    forall i | 0 <= i < |def.indexes| :: ImageAt(db, def, i, toBits)
  }

  ghost predicate Agree(db: Db, def: TableDef, toBits: ToBits) {
    WellKeyed(db.base, def, toBits) && Images(db, def, toBits)
  }

  /** One item stored or removed, and the indexes maintained with its old and new images. */
  function Write(db: Db, def: TableDef, key: Key, after: Option<Item>, toBits: ToBits): (r: Db) {
    Db(Stored(db.base, key, after), Maintain(db.stores, def.indexes, def, Layers.Find(db.base, key), after, toBits))
  }

  /** What keeps an index in step, whatever the other indexes are like. */
  ghost predicate AgreeAt(db: Db, def: TableDef, i: nat, toBits: ToBits)
    requires i < |def.indexes|
  {
    KeyedIn(db.base, def.indexes[i], def, toBits) && ImageAt(db, def, i, toBits)
  }

  /** A write to the table, seen by one of its indexes. */
  lemma WriteAt(db: Db, def: TableDef, i: nat, key: Key, after: Option<Item>, toBits: ToBits)
    requires DistinctNames(def.indexes) && i < |def.indexes|
    ensures var r := Write(db, def, key, after, toBits);
            && r.base == Stored(db.base, key, after)
            && EntriesOf(r.stores, def.indexes[i].name) ==
               MaintainOne(EntriesOf(db.stores, def.indexes[i].name), def.indexes[i], def, Layers.Find(db.base, key),
                   after, toBits)
  {
    hide MaintainOne, EntriesOf;
    MaintainAt(db.stores, def.indexes, def, Layers.Find(db.base, key), after, toBits);
  }

  /** An index in step stays the image of the table exactly when the write does not clash in it. */
  lemma WriteImagesIff(db: Db, def: TableDef, i: nat, key: Key, after: Option<Item>, toBits: ToBits)
    requires DistinctNames(def.indexes) && i < |def.indexes| && AgreeAt(db, def, i, toBits)
    ensures ImageAt(Write(db, def, key, after, toBits), def, i, toBits)
       <==> !(after.Some? && Clashes(def.indexes[i], def, db.base, key, after.value, toBits))
  {
    hide MaintainOne, IsImage, PrimaryKey, EntriesOf, Write, Clashes, KeyedIn, Stored;
    WriteAt(db, def, i, key, after, toBits);
    WriteImageIff(EntriesOf(db.stores, def.indexes[i].name), def.indexes[i], def, db.base, key, after, toBits);
  }

  lemma WriteKeepsAt(db: Db, def: TableDef, i: nat, key: Key, after: Option<Item>, toBits: ToBits)
    requires DistinctNames(def.indexes) && i < |def.indexes| && AgreeAt(db, def, i, toBits)
    requires after.Some? && InIndex(def.indexes[i], after.value) ==> PrimaryKey(def.keys, after.value, toBits) == key
    ensures AgreeAt(Write(db, def, key, after, toBits), def, i, toBits)
  {
    hide MaintainOne, IsImage, PrimaryKey, EntriesOf, Maintain, InIndex;
    WriteImagesIff(db, def, i, key, after, toBits);
  }

  lemma WriteAgrees(db: Db, def: TableDef, key: Key, after: Option<Item>, toBits: ToBits)
    requires DistinctNames(def.indexes) && Agree(db, def, toBits)
    requires after.Some? ==> PrimaryKey(def.keys, after.value, toBits) == key
    ensures Agree(Write(db, def, key, after, toBits), def, toBits)
  {
    hide MaintainOne, IsImage, PrimaryKey, EntriesOf, Maintain, InIndex, ImageAt;
    forall i | 0 <= i < |def.indexes| ensures ImageAt(Write(db, def, key, after, toBits), def, i, toBits) {
      WriteKeepsAt(db, def, i, key, after, toBits);
    }
  }

  // ---- Requests ------------------------------------------------------------------------------------

  datatype Decision = Keep | StoreItem(item: Item) | Remove

  /** A write request: the item its key comes from, and what it does on seeing the current item. */
  datatype Request = Request(keyItem: Item, decide: Option<Item> -> Decision)

  function KeyOf(def: TableDef, q: Request, toBits: ToBits): (k: Key) {
    PrimaryKey(def.keys, q.keyItem, toBits)
  }

  /** Whatever it sees, the request stores only items that belong under its key. */
  ghost predicate KeepsKey(def: TableDef, q: Request, toBits: ToBits) {
    forall current: Option<Item> | q.decide(current).StoreItem? ::
      PrimaryKey(def.keys, q.decide(current).item, toBits) == KeyOf(def, q, toBits)
  }

  function Apply(db: Db, def: TableDef, key: Key, d: Decision, toBits: ToBits): (r: Db) {
    match d
    case Keep => db
    case StoreItem(item) => Write(db, def, key, Some(item), toBits)
    case Remove => Write(db, def, key, None, toBits)
  }

  /** PutItem, UpdateItem, DeleteItem, one element of BatchWriteItem, and the PartiQL writes. */
  function Handle(db: Db, def: TableDef, q: Request, toBits: ToBits): (r: Db) {
    Apply(db, def, KeyOf(def, q, toBits), q.decide(Layers.Find(db.base, KeyOf(def, q, toBits))), toBits)
  }

  function HandleAll(db: Db, def: TableDef, qs: seq<Request>, toBits: ToBits): (r: Db) {
    if qs == [] then db else Handle(HandleAll(db, def, qs[..|qs| - 1], toBits), def, qs[|qs| - 1], toBits)
  }

  lemma HandleAgrees(db: Db, def: TableDef, q: Request, toBits: ToBits)
    requires DistinctNames(def.indexes) && Agree(db, def, toBits) && KeepsKey(def, q, toBits)
    ensures Agree(Handle(db, def, q, toBits), def, toBits)
  {
    hide Agree, Write, PrimaryKey;
    var key := KeyOf(def, q, toBits);
    match q.decide(Layers.Find(db.base, key))
    case Keep =>
    case StoreItem(item) => WriteAgrees(db, def, key, Some(item), toBits);
    case Remove => WriteAgrees(db, def, key, None, toBits);
  }

  /** From an empty table, any sequence of writes leaves every index the exact image of the table. */
  lemma {:induction false} IndexAgreement(def: TableDef, qs: seq<Request>, toBits: ToBits)
    requires DistinctNames(def.indexes) && forall i | 0 <= i < |qs| :: KeepsKey(def, qs[i], toBits)
    ensures Agree(HandleAll(Db(map[], map[]), def, qs, toBits), def, toBits)
    decreases |qs|
  {
    if qs != [] {
      IndexAgreement(def, qs[..|qs| - 1], toBits);
      hide Agree, Handle, KeepsKey;
      HandleAgrees(HandleAll(Db(map[], map[]), def, qs[..|qs| - 1], toBits), def, qs[|qs| - 1], toBits);
    }
  }

  // ---- When an update moves an item's key ----------------------------------------------------------

  /** Storing under k an item whose key attributes are another stored item's makes the two share an index entry. */
  lemma MovedKeyCollides(db: Db, def: TableDef, idx: IndexSpec, k: Key, other: Key, item: Item, toBits: ToBits)
    requires k != other && other in db.base
    requires forall i | 0 <= i < |def.keys| ::
             def.keys[i] in item && def.keys[i] in db.base[other] && item[def.keys[i]] == db.base[other][def.keys[i]]
    requires forall i | 0 <= i < |idx.keys| ::
             idx.keys[i] in item && idx.keys[i] in db.base[other] && item[idx.keys[i]] == db.base[other][idx.keys[i]]
    ensures var base := Write(db, def, k, Some(item), toBits).base;
            && k in base && other in base
            && IndexKey(idx, def, base[k], toBits) == IndexKey(idx, def, base[other], toBits)
  {
    hide PrimaryKey, Maintain;
    SamePartsIff(idx.keys + def.keys, item, db.base[other], toBits);
    forall i | 0 <= i < |idx.keys + def.keys|
      ensures PartOf(KeyCodec.Find(item, (idx.keys + def.keys)[i]), toBits)
              == PartOf(KeyCodec.Find(db.base[other], (idx.keys + def.keys)[i]), toBits)
    {
      var name := (idx.keys + def.keys)[i];
      assert name == if i < |idx.keys| then idx.keys[i] else def.keys[i - |idx.keys|];
    }
  }

  /** ... so that removing the other item leaves this one without its entry. */
  lemma MovedKeyLosesEntry(db: Db, def: TableDef, j: nat, k: Key, other: Key, item: Item, toBits: ToBits)
    requires DistinctNames(def.indexes) && j < |def.indexes| && k != other && other in db.base
    requires forall i | 0 <= i < |def.keys| ::
             def.keys[i] in item && def.keys[i] in db.base[other] && item[def.keys[i]] == db.base[other][def.keys[i]]
    requires var names := def.indexes[j].keys;
             forall i | 0 <= i < |names| ::
                 names[i] in item && names[i] in db.base[other] && item[names[i]] == db.base[other][names[i]]
    ensures var idx := def.indexes[j];
            var r := Write(Write(db, def, k, Some(item), toBits), def, other, None, toBits);
            && k in r.base && InIndex(idx, r.base[k])
            && IndexKey(idx, def, r.base[k], toBits) !in EntriesOf(r.stores, idx.name)
  {
    var idx := def.indexes[j];
    var moved := Write(db, def, k, Some(item), toBits);
    MovedKeyCollides(db, def, idx, k, other, item, toBits);
    hide PrimaryKey, Maintain;
    MaintainAt(moved.stores, def.indexes, def, Layers.Find(moved.base, other), None, toBits);
  }

  // ---- What follows a write that moves a key -------------------------------------------------------

  ghost predicate AllKeep(def: TableDef, qs: seq<Request>, toBits: ToBits) {
    forall i | 0 <= i < |qs| :: KeepsKey(def, qs[i], toBits)
  }

  lemma HandleKeepsAt(db: Db, def: TableDef, i: nat, q: Request, toBits: ToBits)
    requires DistinctNames(def.indexes) && i < |def.indexes| && AgreeAt(db, def, i, toBits) && KeepsKey(def, q, toBits)
    ensures AgreeAt(Handle(db, def, q, toBits), def, i, toBits)
  {
    hide AgreeAt, Write, PrimaryKey, InIndex;
    var key := KeyOf(def, q, toBits);
    match q.decide(Layers.Find(db.base, key))
    case Keep =>
    case StoreItem(item) => WriteKeepsAt(db, def, i, key, Some(item), toBits);
    case Remove => WriteKeepsAt(db, def, i, key, None, toBits);
  }

  lemma {:induction false} RunKeepsAt(db: Db, def: TableDef, i: nat, qs: seq<Request>, toBits: ToBits)
    requires DistinctNames(def.indexes) && i < |def.indexes| && AgreeAt(db, def, i, toBits) && AllKeep(def, qs, toBits)
    ensures AgreeAt(HandleAll(db, def, qs, toBits), def, i, toBits)
    decreases |qs|
  {
    hide AgreeAt, Handle, KeepsKey;
    if qs != [] {
      RunKeepsAt(db, def, i, qs[..|qs| - 1], toBits);
      HandleKeepsAt(HandleAll(db, def, qs[..|qs| - 1], toBits), def, i, qs[|qs| - 1], toBits);
    }
  }

  /** Put the item under its own key, then delete it there. */
  function PutAndDelete(item: Item): (qs: seq<Request>) {
    [Request(item, current => StoreItem(item)), Request(item, current => Remove)]
  }

  lemma PutAndDeleteKeep(def: TableDef, item: Item, toBits: ToBits)
    ensures AllKeep(def, PutAndDelete(item), toBits)
  {
  }

  lemma PutAndDeleteIs(db: Db, def: TableDef, item: Item, toBits: ToBits)
    ensures var own := PrimaryKey(def.keys, item, toBits);
            HandleAll(db, def, PutAndDelete(item), toBits)
            == Write(Write(db, def, own, Some(item), toBits), def, own, None, toBits)
  {
    hide PrimaryKey, Write;
    var qs := PutAndDelete(item);
    assert qs[..1] == [qs[0]] && qs[..1][..0] == [];
    assert HandleAll(db, def, [], toBits) == db;
    assert HandleAll(db, def, qs[..1], toBits) == Handle(db, def, qs[0], toBits);
  }

  /** A moved item that is in the index loses its entry when its own key is written and deleted. */
  lemma PutAndDeleteBreaks(db: Db, def: TableDef, i: nat, key: Key, item: Item, toBits: ToBits)
    requires DistinctNames(def.indexes) && i < |def.indexes|
    requires PrimaryKey(def.keys, item, toBits) != key && InIndex(def.indexes[i], item)
    requires key in db.base && db.base[key] == item
    ensures !ImageAt(HandleAll(db, def, PutAndDelete(item), toBits), def, i, toBits)
  {
    hide PrimaryKey, Write, EntriesOf, HandleAll, Shows, Project;
    var own, idx := PrimaryKey(def.keys, item, toBits), def.indexes[i];
    var put := Write(db, def, own, Some(item), toBits);
    PutAndDeleteIs(db, def, item, toBits);
    WriteAt(db, def, i, own, Some(item), toBits);
    WriteAt(put, def, i, own, None, toBits);
    var r := Write(put, def, own, None, toBits);
    assert key in r.base && r.base[key] == item;
    assert IndexKey(idx, def, item, toBits) !in EntriesOf(r.stores, idx.name);
  }

  /**
   Whatever key-keeping requests follow, an index stays the image of the table, exactly when the item was stored
   under its own key or is not in that index.
   */
  lemma IndexContinuesIff(db: Db, def: TableDef, i: nat, key: Key, item: Item, toBits: ToBits)
    requires DistinctNames(def.indexes) && i < |def.indexes| && AgreeAt(db, def, i, toBits)
    ensures (forall qs: seq<Request> | AllKeep(def, qs, toBits) ::
               ImageAt(HandleAll(Write(db, def, key, Some(item), toBits), def, qs, toBits), def, i, toBits))
       <==> PrimaryKey(def.keys, item, toBits) == key || !InIndex(def.indexes[i], item)
  {
    hide PrimaryKey, IsImage, InIndex, HandleAll, AllKeep, Maintain, EntriesOf, KeyedIn;
    var w := Write(db, def, key, Some(item), toBits);
    if PrimaryKey(def.keys, item, toBits) == key || !InIndex(def.indexes[i], item) {
      WriteKeepsAt(db, def, i, key, Some(item), toBits);
      forall qs: seq<Request> | AllKeep(def, qs, toBits) ensures ImageAt(HandleAll(w, def, qs, toBits), def, i,
          toBits) {
        RunKeepsAt(w, def, i, qs, toBits);
      }
    } else {
      PutAndDeleteKeep(def, item, toBits);
      PutAndDeleteBreaks(w, def, i, key, item, toBits);
    }
  }

  /** And all indexes stay images exactly when the item was stored under its own key or is in no index. */
  lemma AgreementContinuesIff(db: Db, def: TableDef, key: Key, item: Item, toBits: ToBits)
    requires DistinctNames(def.indexes) && Agree(db, def, toBits)
    ensures (forall qs: seq<Request> | AllKeep(def, qs, toBits) ::
               Images(HandleAll(Write(db, def, key, Some(item), toBits), def, qs, toBits), def, toBits))
       <==> (|| PrimaryKey(def.keys, item, toBits) == key
             || forall i | 0 <= i < |def.indexes| :: !InIndex(def.indexes[i], item))
  {
    hide PrimaryKey, ImageAt, InIndex, HandleAll, AllKeep, Write;
    var w := Write(db, def, key, Some(item), toBits);
    if PrimaryKey(def.keys, item, toBits) == key
        || forall i | 0 <= i < |def.indexes| :: !InIndex(def.indexes[i], item) {
      forall qs: seq<Request>, i | AllKeep(def, qs, toBits) && 0 <= i < |def.indexes|
        ensures ImageAt(HandleAll(w, def, qs, toBits), def, i, toBits)
      {
        AgreesEverywhere(db, def, i, toBits);
        IndexContinuesIff(db, def, i, key, item, toBits);
      }
    } else {
      var i :| 0 <= i < |def.indexes| && InIndex(def.indexes[i], item);
      AgreesEverywhere(db, def, i, toBits);
      IndexContinuesIff(db, def, i, key, item, toBits);
      var qs: seq<Request> :| AllKeep(def, qs, toBits) && !ImageAt(HandleAll(w, def, qs, toBits), def, i, toBits);
    }
  }

  /**
   From an empty table with key p and an index on g: put {p: a, g: x}, update {p: b} to {p: a, g: x}, delete {p: a}.
   The item stored under b has both index attributes, and the index is empty.
   */
  lemma MovedKeyRun(toBits: ToBits) returns (def: TableDef, qs: seq<Request>)
    ensures DistinctNames(def.indexes) && |def.indexes| == 1 && |qs| == 3
    ensures var db := HandleAll(Db(map[], map[]), def, qs, toBits);
            && EntriesOf(db.stores, def.indexes[0].name) == map[]
            && exists k :: k in db.base && InIndex(def.indexes[0], db.base[k])
    ensures !Images(HandleAll(Db(map[], map[]), def, qs, toBits), def, toBits)
  {
    hide PrimaryKey, HandleAll, Write;
    var item: Item := map[[112] := S([97]), [103] := S([120])];
    var other: Item := map[[112] := S([98])];
    def := TableDef([[112]], [IndexSpec([105], [[103]], All)]);
    qs := [Request(item, current => StoreItem(item)), Request(other, current => StoreItem(item)),
           Request(item, current => Remove)];
    var own, key := PrimaryKey(def.keys, item, toBits), PrimaryKey(def.keys, other, toBits);
    KeysDiffer(def, item, other, toBits);
    var empty := Db(map[], map[]);
    var a := Write(empty, def, own, Some(item), toBits);
    var b := Write(a, def, key, Some(item), toBits);
    var c := Write(b, def, own, None, toBits);
    ThreeRequests(empty, def, qs, toBits);
    assert HandleAll(empty, def, qs, toBits) == c;
    WriteAt(empty, def, 0, own, Some(item), toBits);
    WriteAt(a, def, 0, key, Some(item), toBits);
    WriteAt(b, def, 0, own, None, toBits);
    assert c.base[key] == item && InIndex(def.indexes[0], item);
    assert ImageAt(c, def, 0, toBits) ==> false;
  }

  lemma KeysDiffer(def: TableDef, a: Item, b: Item, toBits: ToBits)
    requires def.keys == [[112]] && [112] in a && [112] in b && a[[112]] == S([97]) && b[[112]] == S([98])
    ensures PrimaryKey(def.keys, a, toBits) != PrimaryKey(def.keys, b, toBits)
  {
    SamePartsIff(def.keys, a, b, toBits);
    assert PartOf(KeyCodec.Find(a, def.keys[0]), toBits) != PartOf(KeyCodec.Find(b, def.keys[0]), toBits);
  }

  lemma ThreeRequests(db: Db, def: TableDef, qs: seq<Request>, toBits: ToBits)
    requires |qs| == 3
    ensures HandleAll(db, def, qs, toBits)
         == Handle(Handle(Handle(db, def, qs[0], toBits), def, qs[1], toBits), def, qs[2], toBits)
  {
    hide Handle;
    assert qs[..2][..1] == [qs[0]] && [qs[0]][..0] == [] && qs[..2][1] == qs[1];
    assert HandleAll(db, def, [], toBits) == db;
    assert HandleAll(db, def, [qs[0]], toBits) == Handle(db, def, qs[0], toBits);
    assert HandleAll(db, def, qs[..2], toBits) == Handle(HandleAll(db, def, [qs[0]], toBits), def, qs[1], toBits);
  }

  lemma AgreesEverywhere(db: Db, def: TableDef, i: nat, toBits: ToBits)
    requires Agree(db, def, toBits) && i < |def.indexes|
    ensures AgreeAt(db, def, i, toBits)
  {
    hide PrimaryKey, IsImage, InIndex;
  }

  /** An update that leaves the key attributes alone keeps its key. */
  lemma UntouchedKeyAttributes(def: TableDef, keyItem: Item, result: Item, toBits: ToBits)
    requires forall i | 0 <= i < |def.keys| :: KeyCodec.Find(result, def.keys[i]) == KeyCodec.Find(keyItem, def.keys[i])
    ensures PrimaryKey(def.keys, result, toBits) == PrimaryKey(def.keys, keyItem, toBits)
  {
    SamePartsIff(def.keys, result, keyItem, toBits);
  }

  // ---- The loops -----------------------------------------------------------------------------------

  class IndexedTable {
    const def: TableDef
    const toBits: ToBits
    var base: Store
    var stores: map<ByteString, Store>

    ghost function View(): (db: Db)
      reads this
    {
      Db(base, stores)
    }

    constructor (def: TableDef, toBits: ToBits)
      ensures View() == Db(map[], map[]) && this.def == def && this.toBits == toBits
    {
      this.def, this.toBits, base, stores := def, toBits, map[], map[];
    }

    method MaintainIndexes(before: Option<Item>, after: Option<Item>)
      modifies this`stores
      ensures stores == Maintain(old(stores), def.indexes, def, before, after, toBits)
    {
      hide InIndex, Project, IndexKey, EntriesOf;
      var i := 0;
      while i < |def.indexes|
        invariant 0 <= i <= |def.indexes|
        invariant stores == Maintain(old(stores), def.indexes[..i], def, before, after, toBits)
      {
        var idx := def.indexes[i];
        assert def.indexes[..i + 1][..i] == def.indexes[..i];
        var entries := EntriesOf(stores, idx.name);
        if before.Some? && InIndex(idx, before.value) {
          entries := entries - {IndexKey(idx, def, before.value, toBits)};
        }
        if after.Some? && InIndex(idx, after.value) {
          ProjectShows(idx, def, after.value);
          entries := entries[IndexKey(idx, def, after.value, toBits) := Project(idx, def, after.value).value];
        }
        stores := stores[idx.name := entries];
        i := i + 1;
      }
      assert def.indexes[..i] == def.indexes;
    }

    /** A write handler: mutate the item, then maintain the indexes with what it was and what it is. */
    method HandleRequest(q: Request)
      modifies this
      ensures View() == Handle(old(View()), def, q, toBits)
      ensures var key := PrimaryKey(def.keys, q.keyItem, toBits);
              match q.decide(if key in old(base) then Some(old(base)[key]) else None)
              case Keep => base == old(base) && stores == old(stores)
              case StoreItem(item) => base == old(base)[key := item]
              case Remove => base == old(base) - {key}
      ensures DistinctNames(def.indexes) && old(Agree(View(), def, toBits)) && KeepsKey(def, q, toBits) ==>
              Agree(View(), def, toBits)
    {
      hide Agree, KeepsKey, PrimaryKey, Maintain, DistinctNames;
      if DistinctNames(def.indexes) && Agree(View(), def, toBits) && KeepsKey(def, q, toBits) {
        HandleAgrees(View(), def, q, toBits);
      }
      var key := KeyOf(def, q, toBits);
      var previous := Layers.Find(base, key);
      match q.decide(previous) {
        case Keep =>
        case StoreItem(item) =>
          base := base[key := item];
          MaintainIndexes(previous, Some(item));
        case Remove =>
          base := base - {key};
          MaintainIndexes(previous, None);
      }
    }
  }
}
