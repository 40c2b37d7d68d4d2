/**
 TransactWriteItems (handle_transact_write_items in src/api/handlers.cpp): items of several tables, all decided
 against the current state first and written afterwards, each with its table's indexes.
 */
module TransactWrites {
  import opened Bytes
  import opened Values
  import opened Layers
  import opened Indexes

  /** The most actions a transaction may have. */
  const MAX_ACTIONS: nat := 100

  type Tables = map<ByteString, Db>
  type Definitions = map<ByteString, TableDef>

  /** One action: its table, its request, and whether it goes ahead on seeing the current item. */
  datatype Action = Action(table: ByteString, request: Request, check: Option<Item> -> bool)

  // ---- One after another ---------------------------------------------------------------------------

  /** The tables the actions name are there. */
  predicate Known(dbs: Tables, defs: Definitions, actions: seq<Action>) {
    forall i | 0 <= i < |actions| :: actions[i].table in defs && actions[i].table in dbs
  }

  function TargetOf(defs: Definitions, a: Action, toBits: ToBits): (k: Key)
    requires a.table in defs
  {
    KeyOf(defs[a.table], a.request, toBits)
  }

  function Current(dbs: Tables, defs: Definitions, a: Action, toBits: ToBits): (r: Option<Item>)
    requires a.table in defs && a.table in dbs
  {
    Layers.Find(dbs[a.table].base, TargetOf(defs, a, toBits))
  }

  /** The write that a decision comes to. */
  function Carry(dbs: Tables, defs: Definitions, a: Action, d: Decision, toBits: ToBits): (r: Tables)
    requires a.table in defs && a.table in dbs
    ensures r.Keys == dbs.Keys
  {
    dbs[a.table := Indexes.Apply(dbs[a.table], defs[a.table], TargetOf(defs, a, toBits), d, toBits)]
  }

  /** Check and write one action after another, giving up at the first check that fails. */
  function OneByOne(dbs: Tables, defs: Definitions, actions: seq<Action>, toBits: ToBits): (r: Option<Tables>)
    requires Known(dbs, defs, actions)
    ensures r.Some? ==> r.value.Keys == dbs.Keys
  {
    if actions == [] then Some(dbs)
    else
      var a := actions[|actions| - 1];
      var before := OneByOne(dbs, defs, actions[..|actions| - 1], toBits);
      if before.None? then None
      else
        var current := Current(before.value, defs, a, toBits);
        if a.check(current) then Some(Carry(before.value, defs, a, a.request.decide(current), toBits)) else None
  }

  // ---- In two phases -------------------------------------------------------------------------------

  /** Phase 1: every check against the current state. */
  predicate AllChecked(dbs: Tables, defs: Definitions, actions: seq<Action>, toBits: ToBits)
    requires Known(dbs, defs, actions)
  {
    forall i | 0 <= i < |actions| :: actions[i].check(Current(dbs, defs, actions[i], toBits))
  }

  /** What phase 1 decides, action by action. */
  function Decisions(dbs: Tables, defs: Definitions, actions: seq<Action>, toBits: ToBits): (ds: seq<Decision>)
    requires Known(dbs, defs, actions)
    ensures |ds| == |actions|
  {
    seq(|actions|, i requires 0 <= i < |actions| => actions[i].request.decide(Current(dbs, defs, actions[i], toBits)))
  }

  /** Phase 2: the decisions, written in order. */
  function CarryAll(dbs: Tables, defs: Definitions, actions: seq<Action>, ds: seq<Decision>, toBits: ToBits)
    : (r: Tables)
    requires Known(dbs, defs, actions) && |ds| == |actions|
    ensures r.Keys == dbs.Keys
  {
    if actions == [] then dbs
    else
      var n := |actions| - 1;
      Carry(CarryAll(dbs, defs, actions[..n], ds[..n], toBits), defs, actions[n], ds[n], toBits)
  }

  /** No item is acted on twice. */
  ghost predicate DistinctTargets(defs: Definitions, actions: seq<Action>, toBits: ToBits)
    requires forall i | 0 <= i < |actions| :: actions[i].table in defs
  {
    forall i, j | 0 <= i < j < |actions| ::
      actions[i].table != actions[j].table || TargetOf(defs, actions[i], toBits) != TargetOf(defs, actions[j], toBits)
  }

  ghost predicate Wellformed(dbs: Tables, defs: Definitions, actions: seq<Action>, toBits: ToBits) {
    |actions| <= MAX_ACTIONS && Known(dbs, defs, actions) && DistinctTargets(defs, actions, toBits)
  }

  // ---- The two agree -------------------------------------------------------------------------------

  lemma CarryElsewhere(dbs: Tables, defs: Definitions, a: Action, d: Decision, b: Action, toBits: ToBits)
    requires a.table in defs && a.table in dbs && b.table in defs && b.table in dbs
    requires a.table != b.table || TargetOf(defs, a, toBits) != TargetOf(defs, b, toBits)
    ensures Current(Carry(dbs, defs, a, d, toBits), defs, b, toBits) == Current(dbs, defs, b, toBits)
  {
    hide KeyOf, Maintain;
  }

  /** What one action sees is not changed by the others. */
  lemma {:induction false} OthersUntouched(dbs: Tables, defs: Definitions, actions: seq<Action>, b: Action,
      toBits: ToBits)
    requires Known(dbs, defs, actions) && b.table in defs && b.table in dbs
    requires forall i | 0 <= i < |actions| ::
             actions[i].table != b.table || TargetOf(defs, actions[i], toBits) != TargetOf(defs, b, toBits)
    ensures var r := OneByOne(dbs, defs, actions, toBits);
            r.Some? ==> Current(r.value, defs, b, toBits) == Current(dbs, defs, b, toBits)
  {
    hide Current, Carry, TargetOf;
    var r := OneByOne(dbs, defs, actions, toBits);
    if actions != [] && r.Some? {
      var n := |actions| - 1;
      OthersUntouched(dbs, defs, actions[..n], b, toBits);
      var before := OneByOne(dbs, defs, actions[..n], toBits).value;
      CarryElsewhere(before, defs, actions[n], actions[n].request.decide(Current(before, defs, actions[n], toBits)), b,
          toBits);
    }
  }

  /** Deciding everything first and writing afterwards is checking and writing one action after another. */
  lemma {:induction false} PhasesAreSequential(dbs: Tables, defs: Definitions, actions: seq<Action>, toBits: ToBits)
    requires Known(dbs, defs, actions) && DistinctTargets(defs, actions, toBits)
    ensures OneByOne(dbs, defs, actions, toBits)
         == if AllChecked(dbs, defs, actions, toBits)
            then Some(CarryAll(dbs, defs, actions, Decisions(dbs, defs, actions, toBits), toBits)) else None
  {
    hide Current, Carry, TargetOf;
    if actions != [] {
      var n := |actions| - 1;
      var init, a := actions[..n], actions[n];
      PhasesAreSequential(dbs, defs, init, toBits);
      OthersUntouched(dbs, defs, init, a, toBits);
      assert Decisions(dbs, defs, actions, toBits)[..n] == Decisions(dbs, defs, init, toBits);
      assert AllChecked(dbs, defs, actions, toBits)
        <==> AllChecked(dbs, defs, init, toBits) && a.check(Current(dbs, defs, a, toBits)) by {
        assert forall i | 0 <= i < n :: init[i] == actions[i];
      }
    }
  }

  // ---- What a transaction comes to -----------------------------------------------------------------

  /** The action is on the item of table t with key k. */
  ghost predicate ActsOn(defs: Definitions, a: Action, t: ByteString, k: Key, toBits: ToBits) {
    a.table == t && t in defs && KeyCodec.PrimaryKey(defs[t].keys, a.request.keyItem, toBits) == k
  }

  /** The item is what the decision makes of it: as it was, the item stored, or gone. */
  ghost predicate Decided(before: Option<Item>, d: Decision, after: Option<Item>) {
    match d
    case Keep => after == before
    case StoreItem(item) => after == Some(item)
    case Remove => after == None
  }

  /** Every item acted on is what its action decided on seeing it in `dbs`; every other item is as it was there. */
  ghost predicate Effect(dbs: Tables, r: Tables, defs: Definitions, actions: seq<Action>, toBits: ToBits) {
    && r.Keys == dbs.Keys
    && forall t, k: Key | t in dbs ::
         && (forall i | 0 <= i < |actions| && ActsOn(defs, actions[i], t, k, toBits) ::
               Decided(Layers.Find(dbs[t].base, k), actions[i].request.decide(Layers.Find(dbs[t].base, k)),
                       Layers.Find(r[t].base, k)))
         && ((forall i | 0 <= i < |actions| :: !ActsOn(defs, actions[i], t, k, toBits)) ==>
               Layers.Find(r[t].base, k) == Layers.Find(dbs[t].base, k))
  }

  lemma CarryAt(dbs: Tables, defs: Definitions, a: Action, d: Decision, t: ByteString, k: Key, toBits: ToBits)
    requires a.table in defs && a.table in dbs && t in dbs
    ensures var r := Carry(dbs, defs, a, d, toBits);
            if ActsOn(defs, a, t, k, toBits) then Decided(Layers.Find(dbs[t].base, k), d, Layers.Find(r[t].base, k))
            else Layers.Find(r[t].base, k) == Layers.Find(dbs[t].base, k)
  {
    hide KeyCodec.PrimaryKey, Maintain;
  }

  lemma {:induction false} CarryAllElsewhere(dbs: Tables, defs: Definitions, actions: seq<Action>, ds: seq<Decision>,
                                             t: ByteString, k: Key, toBits: ToBits)
    requires Known(dbs, defs, actions) && |ds| == |actions| && t in dbs
    requires forall i | 0 <= i < |actions| :: !ActsOn(defs, actions[i], t, k, toBits)
    ensures Layers.Find(CarryAll(dbs, defs, actions, ds, toBits)[t].base, k) == Layers.Find(dbs[t].base, k)
  {
    hide Carry, ActsOn;
    if actions != [] {
      var n := |actions| - 1;
      CarryAllElsewhere(dbs, defs, actions[..n], ds[..n], t, k, toBits);
      CarryAt(CarryAll(dbs, defs, actions[..n], ds[..n], toBits), defs, actions[n], ds[n], t, k, toBits);
    }
  }

  lemma {:induction false} CarryAllAt(dbs: Tables, defs: Definitions, actions: seq<Action>, ds: seq<Decision>,
                                      t: ByteString, k: Key, i: nat, toBits: ToBits)
    requires Known(dbs, defs, actions) && |ds| == |actions| && t in dbs
    requires i < |actions| && ActsOn(defs, actions[i], t, k, toBits)
    requires forall j | 0 <= j < |actions| && j != i :: !ActsOn(defs, actions[j], t, k, toBits)
    ensures Decided(Layers.Find(dbs[t].base, k), ds[i],
                    Layers.Find(CarryAll(dbs, defs, actions, ds, toBits)[t].base, k))
  {
    hide Carry, ActsOn, Decided;
    var n := |actions| - 1;
    CarryAt(CarryAll(dbs, defs, actions[..n], ds[..n], toBits), defs, actions[n], ds[n], t, k, toBits);
    if i < n {
      CarryAllAt(dbs, defs, actions[..n], ds[..n], t, k, i, toBits);
    } else {
      CarryAllElsewhere(dbs, defs, actions[..n], ds[..n], t, k, toBits);
    }
  }

  lemma ActsAlone(defs: Definitions, actions: seq<Action>, t: ByteString, k: Key, i: nat, toBits: ToBits)
    requires forall j | 0 <= j < |actions| :: actions[j].table in defs
    requires DistinctTargets(defs, actions, toBits) && i < |actions| && ActsOn(defs, actions[i], t, k, toBits)
    ensures forall j | 0 <= j < |actions| && j != i :: !ActsOn(defs, actions[j], t, k, toBits)
  {
    hide KeyCodec.PrimaryKey;
    assert TargetOf(defs, actions[i], toBits) == k;
    forall j | 0 <= j < |actions| && j != i ensures !ActsOn(defs, actions[j], t, k, toBits) {
      assert actions[j].table != t || TargetOf(defs, actions[j], toBits) != k;
    }
  }

  /** What phase 1 decides, written in phase 2, is the transaction's effect. */
  lemma PhasesHaveEffect(dbs: Tables, defs: Definitions, actions: seq<Action>, toBits: ToBits)
    requires Known(dbs, defs, actions) && DistinctTargets(defs, actions, toBits)
    ensures Effect(dbs, CarryAll(dbs, defs, actions, Decisions(dbs, defs, actions, toBits), toBits), defs, actions,
                   toBits)
  {
    var ds := Decisions(dbs, defs, actions, toBits);
    var r := CarryAll(dbs, defs, actions, ds, toBits);
    hide KeyCodec.PrimaryKey, CarryAll, Decided, DistinctTargets;
    forall t, k: Key, i | t in dbs && 0 <= i < |actions| && ActsOn(defs, actions[i], t, k, toBits)
      ensures Decided(Layers.Find(dbs[t].base, k), actions[i].request.decide(Layers.Find(dbs[t].base, k)),
                      Layers.Find(r[t].base, k))
    {
      ActsAlone(defs, actions, t, k, i, toBits);
      CarryAllAt(dbs, defs, actions, ds, t, k, i, toBits);
      assert ds[i] == actions[i].request.decide(Current(dbs, defs, actions[i], toBits));
    }
    forall t, k: Key | t in dbs && forall i | 0 <= i < |actions| :: !ActsOn(defs, actions[i], t, k, toBits)
      ensures Layers.Find(r[t].base, k) == Layers.Find(dbs[t].base, k)
    {
      CarryAllElsewhere(dbs, defs, actions, ds, t, k, toBits);
    }
  }

  // ---- Indexes -------------------------------------------------------------------------------------

  /** Every table agrees with its indexes. */
  ghost predicate AllAgree(dbs: Tables, defs: Definitions, toBits: ToBits) {
    forall t | t in dbs && t in defs :: DistinctNames(defs[t].indexes) && Agree(dbs[t], defs[t], toBits)
  }

  /** The decision stores nothing but an item that belongs under the action's key. */
  ghost predicate KeepsTarget(defs: Definitions, a: Action, d: Decision, toBits: ToBits)
    requires a.table in defs
  {
    d.StoreItem? ==> KeyCodec.PrimaryKey(defs[a.table].keys, d.item, toBits) == TargetOf(defs, a, toBits)
  }

  lemma CarryAgrees(dbs: Tables, defs: Definitions, a: Action, d: Decision, toBits: ToBits)
    requires AllAgree(dbs, defs, toBits) && a.table in defs && a.table in dbs && KeepsTarget(defs, a, d, toBits)
    ensures AllAgree(Carry(dbs, defs, a, d, toBits), defs, toBits)
  {
    hide Agree, Indexes.Write, KeyCodec.PrimaryKey, DistinctNames;
    var key := TargetOf(defs, a, toBits);
    match d
    case Keep =>
    case StoreItem(item) => WriteAgrees(dbs[a.table], defs[a.table], key, Some(item), toBits);
    case Remove => WriteAgrees(dbs[a.table], defs[a.table], key, None, toBits);
  }

  /** Phase 2 by itself: whatever was decided, decisions that keep their keys keep every index in step. */
  lemma {:induction false} CarryAllAgrees(dbs: Tables, defs: Definitions, actions: seq<Action>, ds: seq<Decision>,
      toBits: ToBits)
    requires Known(dbs, defs, actions) && |ds| == |actions| && AllAgree(dbs, defs, toBits)
    requires forall i | 0 <= i < |actions| :: KeepsTarget(defs, actions[i], ds[i], toBits)
    ensures AllAgree(CarryAll(dbs, defs, actions, ds, toBits), defs, toBits)
  {
    hide AllAgree, Carry, KeepsTarget;
    if actions != [] {
      var n := |actions| - 1;
      CarryAllAgrees(dbs, defs, actions[..n], ds[..n], toBits);
      CarryAgrees(CarryAll(dbs, defs, actions[..n], ds[..n], toBits), defs, actions[n], ds[n], toBits);
    }
  }

  // ---- Runs of requests and transactions -----------------------------------------------------------

  /** What clients ask for: a write to one item, or a transaction. */
  datatype Deed = Single(table: ByteString, request: Request) | Transact(actions: seq<Action>)

  /** A request for an unknown table and a malformed or failing transaction change nothing. */
  ghost function Perform(dbs: Tables, defs: Definitions, d: Deed, toBits: ToBits): (r: Tables)
    ensures r.Keys == dbs.Keys
  {
    match d
    case Single(t, q) =>
      if t in defs && t in dbs then dbs[t := Handle(dbs[t], defs[t], q, toBits)] else dbs
    case Transact(actions) =>
      if !Wellformed(dbs, defs, actions, toBits) then dbs
      else match OneByOne(dbs, defs, actions, toBits) case None => dbs case Some(r) => r
  }

  ghost function PerformAll(dbs: Tables, defs: Definitions, ds: seq<Deed>, toBits: ToBits): (r: Tables) {
    if ds == [] then dbs else Perform(PerformAll(dbs, defs, ds[..|ds| - 1], toBits), defs, ds[|ds| - 1], toBits)
  }

  /** Every request in it stores only items that belong under its key. */
  ghost predicate KeepsKeys(defs: Definitions, d: Deed, toBits: ToBits) {
    match d
    case Single(t, q) => t in defs ==> KeepsKey(defs[t], q, toBits)
    case Transact(actions) => ActionsKeep(defs, actions, toBits)
  }

  ghost predicate ActionsKeep(defs: Definitions, actions: seq<Action>, toBits: ToBits) {
    forall i | 0 <= i < |actions| ::
      actions[i].table in defs ==> KeepsKey(defs[actions[i].table], actions[i].request, toBits)
  }

  /** A new table for each definition. */
  function NewTables(defs: Definitions): (dbs: Tables) {
    map t | t in defs :: Db(map[], map[])
  }

  lemma DecisionsKeep(dbs: Tables, defs: Definitions, actions: seq<Action>, toBits: ToBits)
    requires Known(dbs, defs, actions) && ActionsKeep(defs, actions, toBits)
    ensures forall i | 0 <= i < |actions| :: actions[i].table in defs
    ensures forall i | 0 <= i < |actions| ::
            KeepsTarget(defs, actions[i], Decisions(dbs, defs, actions, toBits)[i], toBits)
  {
    forall i | 0 <= i < |actions|
      ensures KeepsTarget(defs, actions[i], Decisions(dbs, defs, actions, toBits)[i], toBits)
    {
      var q, current := actions[i].request, Current(dbs, defs, actions[i], toBits);
      assert KeepsKey(defs[actions[i].table], q, toBits);
      assert Decisions(dbs, defs, actions, toBits)[i] == q.decide(current);
    }
  }

  lemma PerformAgrees(dbs: Tables, defs: Definitions, d: Deed, toBits: ToBits)
    requires AllAgree(dbs, defs, toBits) && KeepsKeys(defs, d, toBits)
    ensures AllAgree(Perform(dbs, defs, d, toBits), defs, toBits)
  {
    hide Agree, Handle, DistinctNames, KeepsKey, OneByOne, CarryAll, Decisions, DistinctTargets, Known, AllChecked;
    match d
    case Single(t, q) =>
      if t in defs && t in dbs {
        HandleAgrees(dbs[t], defs[t], q, toBits);
      }
    case Transact(actions) =>
      if Wellformed(dbs, defs, actions, toBits) {
        hide AllAgree, ActionsKeep;
        PhasesAreSequential(dbs, defs, actions, toBits);
        DecisionsKeep(dbs, defs, actions, toBits);
        CarryAllAgrees(dbs, defs, actions, Decisions(dbs, defs, actions, toBits), toBits);
      }
  }

  /**
   From new tables on, any sequence of requests and transactions that keep their keys leaves every index of every table
   the exact image of its table.
   */
  lemma {:induction false} AgreementOfAll(defs: Definitions, ds: seq<Deed>, toBits: ToBits)
    requires forall t | t in defs :: DistinctNames(defs[t].indexes)
    requires forall i | 0 <= i < |ds| :: KeepsKeys(defs, ds[i], toBits)
    ensures AllAgree(PerformAll(NewTables(defs), defs, ds, toBits), defs, toBits)
    decreases |ds|
  {
    hide Perform, KeepsKeys, DistinctNames;
    if ds == [] {
      NewAgree(defs, toBits);
    } else {
      hide AllAgree;
      AgreementOfAll(defs, ds[..|ds| - 1], toBits);
      PerformAgrees(PerformAll(NewTables(defs), defs, ds[..|ds| - 1], toBits), defs, ds[|ds| - 1], toBits);
    }
  }

  lemma NewAgree(defs: Definitions, toBits: ToBits)
    requires forall t | t in defs :: DistinctNames(defs[t].indexes)
    ensures AllAgree(NewTables(defs), defs, toBits)
  {
    hide Agree, DistinctNames;
    forall t | t in defs ensures Agree(Db(map[], map[]), defs[t], toBits) {
      IndexAgreement(defs[t], [], toBits);
    }
  }

  // ---- The handler ---------------------------------------------------------------------------------

  /** Every action finds its table, and no item is acted on twice. */
  method Targets(dbs: Tables, defs: Definitions, actions: seq<Action>, toBits: ToBits) returns (ok: bool)
    ensures ok <==> Known(dbs, defs, actions) && DistinctTargets(defs, actions, toBits)
  {
    hide TargetOf;
    for i := 0 to |actions|
      invariant Known(dbs, defs, actions[..i])
    {
      if actions[i].table !in defs || actions[i].table !in dbs {
        return false;
      }
      assert actions[..i + 1] == actions[..i] + [actions[i]];
    }
    assert actions[..|actions|] == actions;
    var seen: set<(ByteString, Key)> := {};
    for i := 0 to |actions|
      invariant forall j | 0 <= j < i :: (actions[j].table, TargetOf(defs, actions[j], toBits)) in seen
      invariant forall x | x in seen ::
                exists j :: 0 <= j < i && actions[j].table == x.0 && TargetOf(defs, actions[j], toBits) == x.1
      invariant forall j, k | 0 <= j < k < i ::
                actions[j].table != actions[k].table
                || TargetOf(defs, actions[j], toBits) != TargetOf(defs, actions[k], toBits)
    {
      var target := (actions[i].table, TargetOf(defs, actions[i], toBits));
      if target in seen {
        return false;
      }
      seen := seen + {target};
    }
    return true;
  }

  /** Phase 1: stops at the first check that fails. */
  method Decide(dbs: Tables, defs: Definitions, actions: seq<Action>, toBits: ToBits)
    returns (ok: bool, ds: seq<Decision>)
    requires Known(dbs, defs, actions)
    ensures ok <==> AllChecked(dbs, defs, actions, toBits)
    ensures ok ==> ds == Decisions(dbs, defs, actions, toBits)
  {
    hide Current;
    ds := [];
    for i := 0 to |actions|
      invariant |ds| == i && ds == Decisions(dbs, defs, actions, toBits)[..i]
      invariant forall j | 0 <= j < i :: actions[j].check(Current(dbs, defs, actions[j], toBits))
    {
      var current := Current(dbs, defs, actions[i], toBits);
      if !actions[i].check(current) {
        return false, [];
      }
      ds := ds + [actions[i].request.decide(current)];
    }
    return true, ds;
  }

  lemma CarryOneMore(dbs: Tables, defs: Definitions, actions: seq<Action>, ds: seq<Decision>, i: nat, toBits: ToBits)
    requires Known(dbs, defs, actions) && |ds| == |actions| && i < |actions|
    ensures CarryAll(dbs, defs, actions[..i + 1], ds[..i + 1], toBits)
         == Carry(CarryAll(dbs, defs, actions[..i], ds[..i], toBits), defs, actions[i], ds[i], toBits)
  {
    assert actions[..i + 1][..i] == actions[..i] && ds[..i + 1][..i] == ds[..i];
  }

  /** Phase 2. */
  method WriteAll(dbs: Tables, defs: Definitions, actions: seq<Action>, ds: seq<Decision>, toBits: ToBits)
    returns (r: Tables)
    requires Known(dbs, defs, actions) && |ds| == |actions|
    ensures r == CarryAll(dbs, defs, actions, ds, toBits)
  {
    hide Carry;
    r := dbs;
    for i := 0 to |actions|
      invariant r.Keys == dbs.Keys && r == CarryAll(dbs, defs, actions[..i], ds[..i], toBits)
    {
      CarryOneMore(dbs, defs, actions, ds, i, toBits);
      r := Carry(r, defs, actions[i], ds[i], toBits);
    }
    assert actions[..|actions|] == actions && ds[..|ds|] == ds;
  }

  /**
   The transaction: refused without a trace, or the same as its actions one after another with a rollback at the
   first check that fails.  Requests that keep their keys leave every index of every table in step.
   */
  method TransactWriteItems(dbs: Tables, defs: Definitions, actions: seq<Action>, toBits: ToBits)
    returns (ok: bool, r: Tables)
    ensures Wellformed(dbs, defs, actions, toBits) ==>
              (if ok then Some(r) else None) == OneByOne(dbs, defs, actions, toBits)
    ensures ok <==>
              && Wellformed(dbs, defs, actions, toBits)
              && forall i | 0 <= i < |actions| ::
                   var t := actions[i].table;
                   var key := KeyCodec.PrimaryKey(defs[t].keys, actions[i].request.keyItem, toBits);
                   actions[i].check(Layers.Find(dbs[t].base, key))
    ensures if ok then Effect(dbs, r, defs, actions, toBits) else r == dbs
    ensures AllAgree(dbs, defs, toBits) && ActionsKeep(defs, actions, toBits) ==> AllAgree(r, defs, toBits)
  {
    hide DistinctTargets, AllAgree, ActionsKeep, OneByOne, CarryAll, Decisions, Effect, KeyCodec.PrimaryKey;
    var found := Targets(dbs, defs, actions, toBits);
    if |actions| > MAX_ACTIONS || !found {
      return false, dbs;
    }
    PhasesAreSequential(dbs, defs, actions, toBits);
    PhasesHaveEffect(dbs, defs, actions, toBits);
    var checked, ds := Decide(dbs, defs, actions, toBits);
    if !checked {
      return false, dbs;
    }
    r := WriteAll(dbs, defs, actions, ds, toBits);
    ok := true;
    if AllAgree(dbs, defs, toBits) && ActionsKeep(defs, actions, toBits) {
      DecisionsKeep(dbs, defs, actions, toBits);
      CarryAllAgrees(dbs, defs, actions, ds, toBits);
    }
  }
}
