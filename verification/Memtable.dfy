/**
 What a memtable takes (MemTable over Skiplist, include/cynamodb/engine/lsm/skiplist.hpp): a full one ignores new
 keys, and any one ignores empty and very long keys, without telling the caller.
 */
module Memtables {
  import opened Layers

  /** kMaxSkiplistKeyBytes, kMaxSkiplistEntries. */
  const MAX_KEY: nat := 1048576
  const MAX_ENTRIES: nat := 2000000

  predicate ValidKey(key: Key) {
    key != [] && |key| <= MAX_KEY
  }

  predicate Takes(l: Layer, k: Key) {
    ValidKey(k) && (k in l || |l| < MAX_ENTRIES)
  }

  function Inserted(l: Layer, k: Key, e: Entry): (r: Layer) {
    if Takes(l, k) then l[k := e] else l
  }

  /** Records put into a memtable one after another. */
  function Filled(l: Layer, ws: seq<Write>): (r: Layer) {
    if ws == [] then l else Inserted(Filled(l, ws[..|ws| - 1]), ws[|ws| - 1].key, EntryOf(ws[|ws| - 1]))
  }

  /** A layer that one memtable can hold. */
  ghost predicate Holdable(l: Layer) {
    |l| <= MAX_ENTRIES && forall k | k in l :: ValidKey(k)
  }

  lemma InsertedHoldable(l: Layer, k: Key, e: Entry)
    requires Holdable(l)
    ensures Holdable(Inserted(l, k, e))
  {
    if Takes(l, k) {
      assert l[k := e].Keys == l.Keys + {k};
    }
  }

  lemma {:induction false} FillHoldable(l: Layer, ws: seq<Write>)
    requires Holdable(l)
    ensures Holdable(Filled(l, ws))
  {
    hide Holdable, Inserted;
    if ws != [] {
      var w := ws[|ws| - 1];
      FillHoldable(l, ws[..|ws| - 1]);
      InsertedHoldable(Filled(l, ws[..|ws| - 1]), w.key, EntryOf(w));
    }
  }

  /** Part of a layer that can be held can be held. */
  lemma PartHoldable(part: Layer, l: Layer)
    requires Holdable(l) && part.Keys <= l.Keys
    ensures Holdable(part)
  {
    FewerKeys(part.Keys, l.Keys);
    assert forall k | k in part :: k in l.Keys;
  }

  lemma FewerKeys(a: set<Key>, b: set<Key>)
    requires a <= b
    ensures |a| <= |b|
  {
    assert b == a + (b - a);
  }

  lemma OneMoreRecord(l: Layer, ws: seq<Write>)
    requires ws != []
    ensures var w := ws[|ws| - 1]; l + LogLayer(ws) == (l + LogLayer(ws[..|ws| - 1]))[w.key := EntryOf(w)]
  {
  }

  lemma InsertedIsPart(l: Layer, all: Layer, k: Key, e: Entry)
    requires Holdable(l) && l.Keys <= all.Keys && forall x | x in l :: l[x] == all[x]
    ensures l.Keys <= Inserted(l, k, e).Keys <= all[k := e].Keys
    ensures forall x | x in Inserted(l, k, e) :: Inserted(l, k, e)[x] == all[k := e][x]
  {
  }

  /** What is kept is kept as the log has it. */
  lemma {:induction false} FillIsPart(l: Layer, ws: seq<Write>)
    requires Holdable(l)
    ensures l.Keys <= Filled(l, ws).Keys <= (l + LogLayer(ws)).Keys
    ensures forall k | k in Filled(l, ws) :: Filled(l, ws)[k] == (l + LogLayer(ws))[k]
  {
    hide LogLayer, Holdable, Inserted;
    if ws == [] {
      assert l + LogLayer([]) == l by { NoRecords(l); }
    } else {
      var init, w := ws[..|ws| - 1], ws[|ws| - 1];
      FillIsPart(l, init);
      FillHoldable(l, init);
      OneMoreRecord(l, ws);
      InsertedIsPart(Filled(l, init), l + LogLayer(init), w.key, EntryOf(w));
    }
  }

  lemma NoRecords(l: Layer)
    ensures l + LogLayer([]) == l
  {
  }

  lemma InsertTaken(l: Layer, k: Key, e: Entry)
    requires Holdable(l[k := e])
    ensures Holdable(l) && Inserted(l, k, e) == l[k := e]
  {
    PartHoldable(l, l[k := e]);
    assert k in l[k := e];
    if k !in l {
      assert l[k := e].Keys == l.Keys + {k};
    }
  }

  lemma {:induction false} FillKeeps(l: Layer, ws: seq<Write>)
    requires Holdable(l + LogLayer(ws))
    ensures Filled(l, ws) == l + LogLayer(ws)
  {
    hide LogLayer, Holdable, Inserted;
    if ws == [] {
      NoRecords(l);
    } else {
      var init, w := ws[..|ws| - 1], ws[|ws| - 1];
      OneMoreRecord(l, ws);
      InsertTaken(l + LogLayer(init), w.key, EntryOf(w));
      FillKeeps(l, init);
    }
  }

  /** Filling keeps every record exactly when one memtable can hold them all. */
  lemma FillIff(l: Layer, ws: seq<Write>)
    requires Holdable(l)
    ensures Filled(l, ws) == l + LogLayer(ws) <==> Holdable(l + LogLayer(ws))
  {
    FillHoldable(l, ws);
    if Holdable(l + LogLayer(ws)) {
      FillKeeps(l, ws);
    }
  }

  ghost predicate ValidKeys(ws: seq<Write>) {
    forall i | 0 <= i < |ws| :: ValidKey(ws[i].key)
  }

  lemma {:induction false} StoreValid(ws: seq<Write>)
    requires ValidKeys(ws)
    ensures forall k | k in Spec(map[], ws) :: ValidKey(k)
  {
    hide ValidKey;
    if ws != [] {
      StoreValid(ws[..|ws| - 1]);
    }
  }
}
