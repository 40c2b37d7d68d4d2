/**
 Write transactions under striped two-phase locking (src/engine/transactions/manager.cpp).

 A step is one transaction taking its next stripe mutex, one single-item write to the storage engine, or one
 mutex released; transactions interleave in every order.  The stripe of a key is a hash, given as a function.
 `order` lists the transactions by the moment they held all their stripes.
 */
module Transactions {
  import opened Bytes
  import opened Values

  /** kNumStripes. */
  const STRIPES: nat := 64

  type Stripe = n: nat | n < STRIPES

  datatype Loc = Loc(table: ByteString, key: ByteString)

  type Db = map<Loc, Item>

  /** TransactWriteItem: a delete, a put, or neither. */
  datatype Action = Delete | Put(item: Item) | Nothing

  datatype TxItem = TxItem(loc: Loc, action: Action)

  datatype Pc = Acquiring(next: nat) | Writing(done: nat) | Releasing

  datatype Tx = Tx(items: seq<TxItem>, locks: seq<Stripe>, held: set<Stripe>, pc: Pc)

  datatype State = State(store: Db, txs: seq<Tx>, order: seq<nat>)

  datatype Step = Begin(items: seq<TxItem>, locks: seq<Stripe>) | Acquire(t: nat) | WriteOne(t: nat) | Release(t: nat,
      stripe: Stripe)

  // ---- Validation and lock lists -------------------------------------------------------------------

  /** "table:key". */
  function FullKey(loc: Loc): (k: ByteString) {
    loc.table + [58] + loc.key
  }

  /** Whether b's table is a's with a colon and part of a's key after it, the rest of a's key being b's. */
  ghost predicate ColonMoved(a: Loc, b: Loc) {
    exists u: ByteString :: b.table == a.table + [58] + u && a.key == u + [58] + b.key
  }

  /** Two places share a full key exactly when they are one place, or a colon inside a table name hides the border. */
  lemma SameFullKeyIff(a: Loc, b: Loc)
    ensures FullKey(a) == FullKey(b) <==> a == b || ColonMoved(a, b) || ColonMoved(b, a)
    ensures 58 !in a.table && 58 !in b.table ==> (FullKey(a) == FullKey(b) <==> a == b)
  {
    ShorterTable(a, b);
    ShorterTable(b, a);
    if ColonMoved(a, b) {
      var u: ByteString :| b.table == a.table + [58] + u && a.key == u + [58] + b.key;
      assert FullKey(a) == a.table + [58] + u + [58] + b.key == FullKey(b);
      assert b.table[|a.table|] == 58;
    }
    if ColonMoved(b, a) {
      var u: ByteString :| a.table == b.table + [58] + u && b.key == u + [58] + a.key;
      assert FullKey(b) == b.table + [58] + u + [58] + a.key == FullKey(a);
      assert a.table[|b.table|] == 58;
    }
  }

  lemma ShorterTable(a: Loc, b: Loc)
    ensures |a.table| <= |b.table| && FullKey(a) == FullKey(b) ==> a == b || ColonMoved(a, b)
  {
    if |a.table| <= |b.table| && FullKey(a) == FullKey(b) {
      var n := |a.table|;
      assert FullKey(a)[..n] == a.table && FullKey(a)[n + 1..] == a.key;
      assert FullKey(b)[..|b.table|] == b.table && FullKey(b)[|b.table| + 1..] == b.key;
      if n < |b.table| {
        var u := b.table[n + 1..];
        assert b.table[n] == FullKey(b)[n] == FullKey(a)[n] == 58;
        assert b.table[..n] == a.table;
        assert b.table == a.table + [58] + u;
        assert FullKey(b)[n + 1..] == u + [58] + b.key;
      }
    }
  }

  ghost predicate Accepted(items: seq<TxItem>) {
    && 0 < |items| <= 25
    && forall i, j | 0 <= i < j < |items| :: FullKey(items[i].loc) != FullKey(items[j].loc)
  }

  method Validate(items: seq<TxItem>) returns (ok: bool)
    ensures ok <==> Accepted(items)
  {
    if items == [] || |items| > 25 {
      return false;
    }
    var seen: seq<ByteString> := [];
    for n := 0 to |items|
      invariant |seen| == n && forall i | 0 <= i < n :: seen[i] == FullKey(items[i].loc)
      invariant forall i, j | 0 <= i < j < n :: FullKey(items[i].loc) != FullKey(items[j].loc)
    {
      var k := FullKey(items[n].loc);
      if k in seen {
        return false;
      }
      seen := seen + [k];
    }
    return true;
  }

  ghost function StripesOf(items: seq<TxItem>, stripe: Loc -> Stripe): (r: set<Stripe>) {
    set i | 0 <= i < |items| :: stripe(items[i].loc)
  }

  predicate Increasing(s: seq<Stripe>) {
    forall i, j | 0 <= i < j < |s| :: s[i] < s[j]
  }

  /** Put x into an increasing list, unless it is there: std::sort and std::unique, one element at a time. */
  function InsertOnce(s: seq<Stripe>, x: Stripe): (r: seq<Stripe>) {
    if s == [] || x < s[0] then [x] + s
    else if x == s[0] then s
    else [s[0]] + InsertOnce(s[1..], x)
  }

  lemma {:induction false} InsertOnceKeeps(s: seq<Stripe>, x: Stripe)
    requires Increasing(s)
    ensures Increasing(InsertOnce(s, x))
    ensures forall y :: y in InsertOnce(s, x) <==> y in s || y == x
  {
    if s != [] && x > s[0] {
      InsertOnceKeeps(s[1..], x);
      var r := InsertOnce(s[1..], x);
      forall i | 0 <= i < |r| ensures s[0] < r[i] {
        assert r[i] in r;
      }
      assert s == [s[0]] + s[1..];
    }
  }

  /** The sorted, de-duplicated stripes a transaction locks. */
  method LockList(items: seq<TxItem>, stripe: Loc -> Stripe) returns (locks: seq<Stripe>)
    ensures Increasing(locks) && (set x | x in locks) == StripesOf(items, stripe)
  {
    locks := [];
    for n := 0 to |items|
      invariant Increasing(locks)
      invariant forall x :: x in locks <==> exists i :: 0 <= i < n && stripe(items[i].loc) == x
    {
      var s := stripe(items[n].loc);
      InsertOnceKeeps(locks, s);
      ghost var before := locks;
      locks := InsertOnce(locks, s);
      forall x ensures x in locks <==> exists i :: 0 <= i < n + 1 && stripe(items[i].loc) == x {
        if x in before {
          var i :| 0 <= i < n && stripe(items[i].loc) == x;
        }
        if i :| 0 <= i < n + 1 && stripe(items[i].loc) == x {
          assert i < n || x == s;
        }
      }
    }
  }

  // ---- The state machine ---------------------------------------------------------------------------

  predicate Held(s: State, x: Stripe) {
    exists t :: 0 <= t < |s.txs| && x in s.txs[t].held
  }

  ghost predicate Enabled(s: State, step: Step, stripe: Loc -> Stripe) {
    match step
    case Begin(items, locks) => Accepted(items) && Increasing(locks) && (set x | x in locks) == StripesOf(items, stripe)
    case Acquire(t) =>
      t < |s.txs| && s.txs[t].pc.Acquiring? && s.txs[t].pc.next < |s.txs[t].locks|
          && !Held(s, s.txs[t].locks[s.txs[t].pc.next])
    case WriteOne(t) => t < |s.txs| && s.txs[t].pc.Writing? && s.txs[t].pc.done < |s.txs[t].items|
    case Release(t, x) =>
      t < |s.txs| && x in s.txs[t].held
      && (s.txs[t].pc.Releasing? || (s.txs[t].pc.Writing? && s.txs[t].pc.done == |s.txs[t].items|))
  }

  function Perform(store: Db, w: TxItem): (r: Db) {
    match w.action
    case Delete => store - {w.loc}
    case Put(item) => store[w.loc := item]
    case Nothing => store
  }

  function DoAcquire(s: State, t: nat): (r: State)
    requires t < |s.txs| && s.txs[t].pc.Acquiring? && s.txs[t].pc.next < |s.txs[t].locks|
  {
    var tx := s.txs[t];
    var held := tx.held + {tx.locks[tx.pc.next]};
    if tx.pc.next + 1 < |tx.locks| then s.(txs := s.txs[t := tx.(held := held, pc := Acquiring(tx.pc.next + 1))])
    else s.(txs := s.txs[t := tx.(held := held, pc := Writing(0))], order := s.order + [t])
  }

  function DoWrite(s: State, t: nat): (r: State)
    requires t < |s.txs| && s.txs[t].pc.Writing? && s.txs[t].pc.done < |s.txs[t].items|
  {
    var tx := s.txs[t];
    s.(store := Perform(s.store, tx.items[tx.pc.done]), txs := s.txs[t := tx.(pc := Writing(tx.pc.done + 1))])
  }

  ghost function Do(s: State, step: Step, stripe: Loc -> Stripe): (r: State)
    requires Enabled(s, step, stripe)
  {
    match step
    case Begin(items, locks) => s.(txs := s.txs + [Tx(items, locks, {}, Acquiring(0))])
    case Acquire(t) => DoAcquire(s, t)
    case WriteOne(t) => DoWrite(s, t)
    case Release(t, x) => s.(txs := s.txs[t := s.txs[t].(held := s.txs[t].held - {x}, pc := Releasing)])
  }

  ghost function Run(s: State, steps: seq<Step>, stripe: Loc -> Stripe): (r: Option<State>) {
    if steps == [] then Some(s)
    else
      var p := Run(s, steps[..|steps| - 1], stripe);
      if p.Some? && Enabled(p.value, steps[|steps| - 1], stripe) then Some(Do(p.value, steps[|steps| - 1], stripe))
          else None
  }

  // ---- The serial specification --------------------------------------------------------------------

  /** The items written one after another. */
  function Apply(store: Db, items: seq<TxItem>): (r: Db) {
    if items == [] then store else Perform(Apply(store, items[..|items| - 1]), items[|items| - 1])
  }

  /** How many of its items a transaction has written. */
  function Done(tx: Tx): (n: nat)
    ensures n <= |tx.items|
  {
    match tx.pc
    case Acquiring(_) => 0
    case Writing(done) => if done <= |tx.items| then done else |tx.items|
    case Releasing => |tx.items|
  }

  /** The transactions in `order`, each up to where it has got, one after another. */
  function Serial(store: Db, txs: seq<Tx>, order: seq<nat>): (r: Db)
    requires forall i | 0 <= i < |order| :: order[i] < |txs|
  {
    if order == [] then store
    else
      var tx := txs[order[|order| - 1]];
      Apply(Serial(store, txs, order[..|order| - 1]), tx.items[..Done(tx)])
  }

  // ---- The invariant -------------------------------------------------------------------------------

  /** What a transaction holds at each point. */
  ghost predicate TxOk(tx: Tx, stripe: Loc -> Stripe) {
    && Increasing(tx.locks) && |tx.locks| > 0 && |tx.items| > 0
    && (forall i | 0 <= i < |tx.items| :: stripe(tx.items[i].loc) in tx.locks)
    && (forall x | x in tx.held :: x in tx.locks)
    && match tx.pc
       case Acquiring(next) => next < |tx.locks| && forall x :: x in tx.held <==> x in tx.locks[..next]
       case Writing(done) => done <= |tx.items| && forall x :: x in tx.held <==> x in tx.locks
       case Releasing => true
  }

  ghost predicate AllOk(txs: seq<Tx>, stripe: Loc -> Stripe) {
    forall t | 0 <= t < |txs| :: TxOk(txs[t], stripe)
  }

  ghost predicate Exclusive(txs: seq<Tx>) {
    forall t, u | 0 <= t < u < |txs| :: txs[t].held !! txs[u].held
  }

  /** `order` lists, once each, the transactions past their last acquisition. */
  ghost predicate OrderOk(s: State) {
    && (forall i | 0 <= i < |s.order| :: s.order[i] < |s.txs| && !s.txs[s.order[i]].pc.Acquiring?)
    && (forall i, j | 0 <= i < j < |s.order| :: s.order[i] != s.order[j])
    && (forall t | 0 <= t < |s.txs| && !s.txs[t].pc.Acquiring? :: t in s.order)
  }

  /** A stripe still held is used by no transaction later in the order. */
  ghost predicate NoLaterUse(s: State) {
    && (forall i | 0 <= i < |s.order| :: s.order[i] < |s.txs|)
    && (forall i, j, x | 0 <= i < j < |s.order| && x in s.txs[s.order[i]].held :: x !in s.txs[s.order[j]].locks)
  }

  ghost predicate Serialised(s: State, start: Db) {
    && (forall i | 0 <= i < |s.order| :: s.order[i] < |s.txs|)
    && s.store == Serial(start, s.txs, s.order)
  }

  ghost predicate Inv(s: State, start: Db, stripe: Loc -> Stripe) {
    AllOk(s.txs, stripe) && Exclusive(s.txs) && OrderOk(s) && NoLaterUse(s) && Serialised(s, start)
  }

  // ---- Writes to different places commute ----------------------------------------------------------

  lemma PerformCommutes(store: Db, a: TxItem, b: TxItem)
    requires a.loc != b.loc
    ensures Perform(Perform(store, a), b) == Perform(Perform(store, b), a)
  {
  }

  lemma {:induction false} ApplyCommutes(store: Db, w: TxItem, items: seq<TxItem>)
    requires forall i | 0 <= i < |items| :: items[i].loc != w.loc
    ensures Apply(Perform(store, w), items) == Perform(Apply(store, items), w)
  {
    if items != [] {
      ApplyCommutes(store, w, items[..|items| - 1]);
      PerformCommutes(Apply(store, items[..|items| - 1]), w, items[|items| - 1]);
    }
  }

  lemma ApplyOneMore(store: Db, items: seq<TxItem>, n: nat)
    requires n < |items|
    ensures Apply(store, items[..n + 1]) == Perform(Apply(store, items[..n]), items[n])
  {
    assert items[..n + 1][..n] == items[..n];
  }

  lemma {:induction false} SerialFrame(store: Db, txs: seq<Tx>, txs': seq<Tx>, order: seq<nat>)
    requires forall i | 0 <= i < |order| :: order[i] < |txs| && order[i] < |txs'|
    requires forall i | 0 <= i < |order| ::
               txs'[order[i]].items == txs[order[i]].items && Done(txs'[order[i]]) == Done(txs[order[i]])
    ensures Serial(store, txs', order) == Serial(store, txs, order)
  {
    if order != [] {
      SerialFrame(store, txs, txs', order[..|order| - 1]);
    }
  }

  /** A write made late has the effect it would have had in its transaction's own turn. */
  lemma {:induction false} SerialWrite(store: Db, txs: seq<Tx>, order: seq<nat>, i: nat)
    requires forall j | 0 <= j < |order| :: order[j] < |txs|
    requires forall j, k | 0 <= j < k < |order| :: order[j] != order[k]
    requires i < |order| && txs[order[i]].pc.Writing? && txs[order[i]].pc.done < |txs[order[i]].items|
    requires var w := txs[order[i]].items[txs[order[i]].pc.done];
             forall j, n | i < j < |order| && 0 <= n < |txs[order[j]].items| :: txs[order[j]].items[n].loc != w.loc
    ensures var tx := txs[order[i]];
            Serial(store, txs[order[i] := tx.(pc := Writing(tx.pc.done + 1))], order)
            == Perform(Serial(store, txs, order), tx.items[tx.pc.done])
  {
    var tx := txs[order[i]];
    var w := tx.items[tx.pc.done];
    var txs' := txs[order[i] := tx.(pc := Writing(tx.pc.done + 1))];
    var init, last := order[..|order| - 1], order[|order| - 1];
    if i == |order| - 1 {
      SerialFrame(store, txs, txs', init);
      ApplyOneMore(Serial(store, txs, init), tx.items, tx.pc.done);
    } else {
      SerialWrite(store, txs, init, i);
      assert txs'[last] == txs[last];
      ApplyCommutes(Serial(store, txs, init), w, txs[last].items[..Done(txs[last])]);
    }
  }

  // ---- Every step keeps the invariant --------------------------------------------------------------

  lemma AllOkUpdate(txs: seq<Tx>, stripe: Loc -> Stripe, t: nat, tx: Tx)
    requires AllOk(txs, stripe) && t < |txs| && TxOk(tx, stripe)
    ensures AllOk(txs[t := tx], stripe)
  {
    hide TxOk;
  }

  lemma ExclusiveShrinks(txs: seq<Tx>, t: nat, tx: Tx)
    requires Exclusive(txs) && t < |txs| && tx.held <= txs[t].held
    ensures Exclusive(txs[t := tx])
  {
  }

  /** A transaction that keeps its side of its last acquisition keeps the order as it is. */
  lemma OrderFrame(s: State, r: State, t: nat, tx: Tx)
    requires OrderOk(s) && NoLaterUse(s) && t < |s.txs| && r.order == s.order && r.txs == s.txs[t := tx]
    requires tx.locks == s.txs[t].locks && (t in s.order ==> tx.held <= s.txs[t].held)
    requires tx.pc.Acquiring? <==> s.txs[t].pc.Acquiring?
    ensures OrderOk(r) && NoLaterUse(r)
  {
  }

  lemma BeginTxOk(items: seq<TxItem>, locks: seq<Stripe>, stripe: Loc -> Stripe)
    requires Accepted(items) && Increasing(locks) && (set x | x in locks) == StripesOf(items, stripe)
    ensures TxOk(Tx(items, locks, {}, Acquiring(0)), stripe)
  {
    forall i | 0 <= i < |items| ensures stripe(items[i].loc) in locks {
      assert stripe(items[i].loc) in StripesOf(items, stripe);
      assert stripe(items[i].loc) in (set x | x in locks);
    }
    assert stripe(items[0].loc) in locks;
  }

  lemma BeginKeeps(s: State, start: Db, stripe: Loc -> Stripe, items: seq<TxItem>, locks: seq<Stripe>)
    requires Inv(s, start, stripe) && Enabled(s, Begin(items, locks), stripe)
    ensures Inv(Do(s, Begin(items, locks), stripe), start, stripe)
  {
    var tx := Tx(items, locks, {}, Acquiring(0));
    var r := Do(s, Begin(items, locks), stripe);
    BeginTxOk(items, locks, stripe);
    hide TxOk, Serial, Accepted, Increasing, StripesOf;
    SerialFrame(start, s.txs, r.txs, s.order);
    AppendOk(s, r, stripe, tx);
  }

  lemma AppendOk(s: State, r: State, stripe: Loc -> Stripe, tx: Tx)
    requires AllOk(s.txs, stripe) && Exclusive(s.txs) && OrderOk(s) && NoLaterUse(s)
    requires r.txs == s.txs + [tx] && r.order == s.order && TxOk(tx, stripe) && tx.held == {} && tx.pc.Acquiring?
    ensures AllOk(r.txs, stripe) && Exclusive(r.txs) && OrderOk(r) && NoLaterUse(r)
  {
    hide TxOk;
  }

  lemma AcquireTxOk(tx: Tx, stripe: Loc -> Stripe)
    requires TxOk(tx, stripe) && tx.pc.Acquiring?
    ensures var held := tx.held + {tx.locks[tx.pc.next]};
            && (tx.pc.next + 1 < |tx.locks| ==> TxOk(tx.(held := held, pc := Acquiring(tx.pc.next + 1)), stripe))
            && (tx.pc.next + 1 == |tx.locks| ==> TxOk(tx.(held := held, pc := Writing(0)), stripe))
  {
    var n := tx.pc.next;
    assert tx.locks[..n + 1] == tx.locks[..n] + [tx.locks[n]];
    assert n + 1 == |tx.locks| ==> tx.locks[..n + 1] == tx.locks;
  }

  lemma AcquireExclusive(txs: seq<Tx>, t: nat, x: Stripe, tx: Tx)
    requires Exclusive(txs) && t < |txs| && tx.held == txs[t].held + {x}
    requires forall u | 0 <= u < |txs| :: x !in txs[u].held
    ensures Exclusive(txs[t := tx])
  {
  }

  lemma AcquireKeeps(s: State, start: Db, stripe: Loc -> Stripe, t: nat)
    requires Inv(s, start, stripe) && Enabled(s, Acquire(t), stripe)
    ensures Inv(DoAcquire(s, t), start, stripe)
  {
    var tx := s.txs[t];
    var x := tx.locks[tx.pc.next];
    var r := DoAcquire(s, t);
    assert TxOk(tx, stripe);
    AcquireTxOk(tx, stripe);
    hide TxOk, Serial;
    assert t !in s.order;
    AllOkUpdate(s.txs, stripe, t, r.txs[t]);
    AcquireExclusive(s.txs, t, x, r.txs[t]);
    SerialFrame(start, s.txs, r.txs, s.order);
    if tx.pc.next + 1 == |tx.locks| {
      LastAcquire(s, r, start, stripe, t);
    } else {
      OrderFrame(s, r, t, r.txs[t]);
    }
  }

  lemma LastOrder(s: State, r: State, t: nat, tx: Tx)
    requires OrderOk(s) && t !in s.order && t < |s.txs| && !tx.pc.Acquiring?
    requires r.txs == s.txs[t := tx] && r.order == s.order + [t]
    ensures OrderOk(r)
  {
    assert forall i | 0 <= i < |s.order| :: r.txs[s.order[i]] == s.txs[s.order[i]];
    forall u | 0 <= u < |r.txs| && !r.txs[u].pc.Acquiring? ensures u in r.order {
      assert u != t ==> u in s.order;
      assert r.order[|s.order|] == t;
    }
  }

  lemma LastNoLaterUse(s: State, r: State, t: nat, tx: Tx)
    requires NoLaterUse(s) && t !in s.order && t < |s.txs|
    requires r.txs == s.txs[t := tx] && r.order == s.order + [t]
    requires Exclusive(r.txs) && forall x | x in tx.locks :: x in tx.held
    ensures NoLaterUse(r)
  {
    assert forall i | 0 <= i < |s.order| :: r.txs[s.order[i]] == s.txs[s.order[i]];
    forall i, j, x | 0 <= i < j < |r.order| && x in r.txs[r.order[i]].held ensures x !in r.txs[r.order[j]].locks {
      if j == |s.order| {
        HoldersApart(r.txs, r.order[i], t);
      }
    }
  }

  lemma LastAcquire(s: State, r: State, start: Db, stripe: Loc -> Stripe, t: nat)
    requires OrderOk(s) && NoLaterUse(s) && t !in s.order && t < |s.txs|
    requires |r.txs| == |s.txs| && r == s.(txs := s.txs[t := r.txs[t]], order := s.order + [t])
    requires r.txs[t].pc == Writing(0) && TxOk(r.txs[t], stripe) && Exclusive(r.txs)
    requires Serial(start, r.txs, s.order) == s.store
    ensures OrderOk(r) && NoLaterUse(r) && Serialised(r, start)
  {
    assert forall x | x in r.txs[t].locks :: x in r.txs[t].held;
    hide TxOk, Exclusive, OrderOk, NoLaterUse, Serial;
    LastOrder(s, r, t, r.txs[t]);
    LastNoLaterUse(s, r, t, r.txs[t]);
    LastSerial(start, r.txs, s.order, t);
    OrderBound(r);
  }

  lemma OrderBound(s: State)
    requires OrderOk(s)
    ensures forall i | 0 <= i < |s.order| :: s.order[i] < |s.txs|
  {
  }

  lemma LastSerial(start: Db, txs: seq<Tx>, order: seq<nat>, t: nat)
    requires t < |txs| && (forall i | 0 <= i < |order| :: order[i] < |txs|) && Done(txs[t]) == 0
    ensures Serial(start, txs, order + [t]) == Serial(start, txs, order)
  {
    assert (order + [t])[..|order|] == order;
    assert txs[t].items[..0] == [];
  }

  lemma HoldersApart(txs: seq<Tx>, t: nat, u: nat)
    requires Exclusive(txs) && t < |txs| && u < |txs| && t != u
    ensures txs[t].held !! txs[u].held
  {
  }

  /** No transaction later in the order writes where a writing transaction does. */
  lemma LaterElsewhere(s: State, stripe: Loc -> Stripe, i: nat, j: nat, n: nat)
    requires AllOk(s.txs, stripe) && NoLaterUse(s) && 0 <= i < j < |s.order|
    requires s.txs[s.order[i]].pc.Writing? && s.txs[s.order[i]].pc.done < |s.txs[s.order[i]].items|
    requires n < |s.txs[s.order[j]].items|
    ensures s.txs[s.order[j]].items[n].loc != s.txs[s.order[i]].items[s.txs[s.order[i]].pc.done].loc
  {
    assert TxOk(s.txs[s.order[i]], stripe) && TxOk(s.txs[s.order[j]], stripe);
    var w := s.txs[s.order[i]].items[s.txs[s.order[i]].pc.done];
    assert stripe(w.loc) in s.txs[s.order[i]].held;
  }

  lemma WritesOn(tx: Tx, stripe: Loc -> Stripe)
    requires TxOk(tx, stripe) && tx.pc.Writing? && tx.pc.done < |tx.items|
    ensures TxOk(tx.(pc := Writing(tx.pc.done + 1)), stripe)
  {
  }

  lemma WriteKeeps(s: State, start: Db, stripe: Loc -> Stripe, t: nat)
    requires Inv(s, start, stripe) && Enabled(s, WriteOne(t), stripe)
    ensures Inv(DoWrite(s, t), start, stripe)
  {
    hide TxOk, Serial, Perform;
    var tx := s.txs[t];
    var r := DoWrite(s, t);
    WritesOn(tx, stripe);
    var i :| 0 <= i < |s.order| && s.order[i] == t;
    forall j, n | i < j < |s.order| && 0 <= n < |s.txs[s.order[j]].items|
      ensures s.txs[s.order[j]].items[n].loc != tx.items[tx.pc.done].loc
    {
      LaterElsewhere(s, stripe, i, j, n);
    }
    SerialWrite(start, s.txs, s.order, i);
    AllOkUpdate(s.txs, stripe, t, r.txs[t]);
    ExclusiveShrinks(s.txs, t, r.txs[t]);
    OrderFrame(s, r, t, r.txs[t]);
  }

  lemma ReleaseKeeps(s: State, start: Db, stripe: Loc -> Stripe, t: nat, x: Stripe)
    requires Inv(s, start, stripe) && Enabled(s, Release(t, x), stripe)
    ensures Inv(Do(s, Release(t, x), stripe), start, stripe)
  {
    var r := Do(s, Release(t, x), stripe);
    assert TxOk(s.txs[t], stripe);
    assert TxOk(r.txs[t], stripe);
    assert Done(r.txs[t]) == Done(s.txs[t]);
    hide TxOk, Serial, Done;
    SerialFrame(start, s.txs, r.txs, s.order);
    AllOkUpdate(s.txs, stripe, t, r.txs[t]);
    ExclusiveShrinks(s.txs, t, r.txs[t]);
    OrderFrame(s, r, t, r.txs[t]);
  }

  lemma StepKeeps(s: State, start: Db, stripe: Loc -> Stripe, step: Step)
    requires Inv(s, start, stripe) && Enabled(s, step, stripe)
    ensures Inv(Do(s, step, stripe), start, stripe)
  {
    hide Inv;
    match step
    case Begin(items, locks) => BeginKeeps(s, start, stripe, items, locks);
    case Acquire(t) => AcquireKeeps(s, start, stripe, t);
    case WriteOne(t) => WriteKeeps(s, start, stripe, t);
    case Release(t, x) => ReleaseKeeps(s, start, stripe, t, x);
  }

  lemma {:induction false} ReachableHolds(start: Db, stripe: Loc -> Stripe, steps: seq<Step>)
    requires Run(State(start, [], []), steps, stripe).Some?
    ensures Inv(Run(State(start, [], []), steps, stripe).value, start, stripe)
    decreases |steps|
  {
    if steps != [] {
      var init := steps[..|steps| - 1];
      ReachableHolds(start, stripe, init);
      hide Inv;
      StepKeeps(Run(State(start, [], []), init, stripe).value, start, stripe, steps[|steps| - 1]);
    }
  }

  // ---- Serialisability -----------------------------------------------------------------------------

  /** Whole transactions, one after another. */
  function SerialRun(store: Db, txs: seq<Tx>, order: seq<nat>): (r: Db)
    requires forall i | 0 <= i < |order| :: order[i] < |txs|
  {
    if order == [] then store
    else Apply(SerialRun(store, txs, order[..|order| - 1]), txs[order[|order| - 1]].items)
  }

  ghost predicate Permutation(order: seq<nat>, n: nat) {
    && (forall i | 0 <= i < |order| :: order[i] < n)
    && (forall i, j | 0 <= i < j < |order| :: order[i] != order[j])
    && (forall t: nat | t < n :: t in order)
  }

  lemma {:induction false} SerialOfDone(store: Db, txs: seq<Tx>, order: seq<nat>)
    requires forall i | 0 <= i < |order| :: order[i] < |txs| && Done(txs[order[i]]) == |txs[order[i]].items|
    ensures Serial(store, txs, order) == SerialRun(store, txs, order)
  {
    if order != [] {
      SerialOfDone(store, txs, order[..|order| - 1]);
      var items := txs[order[|order| - 1]].items;
      assert items[..|items|] == items;
    }
  }

  // ---- What the store holds ------------------------------------------------------------------------

  /** The item lists of the transactions begun. */
  function Begun(steps: seq<Step>): (r: seq<seq<TxItem>>) {
    if steps == [] then []
    else
      var init, last := Begun(steps[..|steps| - 1]), steps[|steps| - 1];
      if last.Begin? then init + [last.items] else init
  }

  /** No step adds to, takes from or changes what a transaction was begun with. */
  lemma {:induction false} ItemsAsBegun(start: Db, stripe: Loc -> Stripe, steps: seq<Step>)
    requires Run(State(start, [], []), steps, stripe).Some?
    ensures var s := Run(State(start, [], []), steps, stripe).value;
            |s.txs| == |Begun(steps)| && forall t | 0 <= t < |s.txs| :: s.txs[t].items == Begun(steps)[t]
  {
    if steps != [] {
      ItemsAsBegun(start, stripe, steps[..|steps| - 1]);
    }
  }

  /** The n-th item of a transaction has been written: it is past it, or writes no more. */
  ghost predicate Written(tx: Tx, n: nat) {
    n < |tx.items| && (tx.pc.Releasing? || (tx.pc.Writing? && n < tx.pc.done))
  }

  /** The n-th item of the i-th transaction in the order has put or deleted at l. */
  ghost predicate Wrote(txs: seq<Tx>, order: seq<nat>, l: Loc, i: nat, n: nat) {
    && i < |order| && order[i] < |txs| && Written(txs[order[i]], n)
    && txs[order[i]].items[n].loc == l && !txs[order[i]].items[n].action.Nothing?
  }

  /** That item, and none after it: in a later item of its transaction or in a later transaction. */
  ghost predicate LastWrote(txs: seq<Tx>, order: seq<nat>, l: Loc, i: nat, n: nat) {
    && Wrote(txs, order, l, i, n)
    && forall j: nat, m: nat | Wrote(txs, order, l, j, m) :: j < i || (j == i && m <= n)
  }

  /** What the last write at l left there, and what was there at the start if there was none. */
  ghost predicate HoldsLastWrite(store: Db, start: Db, txs: seq<Tx>, order: seq<nat>, l: Loc) {
    && (forall i: nat, n: nat | LastWrote(txs, order, l, i, n) ::
          match txs[order[i]].items[n].action
          case Put(item) => l in store && store[l] == item
          case _ => l !in store)
    && ((forall i: nat, n: nat :: !Wrote(txs, order, l, i, n)) ==>
          (l in store <==> l in start) && (l in store ==> store[l] == start[l]))
  }

  ghost predicate SameAt(a: Db, b: Db, l: Loc) {
    (l in a <==> l in b) && (l in a ==> a[l] == b[l])
  }

  ghost predicate WritesAt(w: TxItem, l: Loc) {
    w.loc == l && !w.action.Nothing?
  }

  /** The store has at l what the write w leaves there. */
  ghost predicate HoldsWrite(store: Db, w: TxItem) {
    match w.action
    case Put(item) => w.loc in store && store[w.loc] == item
    case _ => w.loc !in store
  }

  lemma {:induction false} ApplyElsewhere(store: Db, items: seq<TxItem>, l: Loc)
    requires forall m | 0 <= m < |items| :: !WritesAt(items[m], l)
    ensures SameAt(Apply(store, items), store, l)
  {
    if items != [] {
      ApplyElsewhere(store, items[..|items| - 1], l);
      assert !WritesAt(items[|items| - 1], l);
    }
  }

  lemma {:induction false} ApplyLast(store: Db, items: seq<TxItem>, n: nat)
    requires n < |items| && !items[n].action.Nothing?
    requires forall m | n < m < |items| :: !WritesAt(items[m], items[n].loc)
    ensures HoldsWrite(Apply(store, items), items[n])
  {
    if n < |items| - 1 {
      ApplyLast(store, items[..|items| - 1], n);
      assert !WritesAt(items[|items| - 1], items[n].loc);
    }
  }

  lemma {:induction false} SerialElsewhere(start: Db, txs: seq<Tx>, order: seq<nat>, l: Loc)
    requires forall i | 0 <= i < |order| :: order[i] < |txs|
    requires forall i: nat, n: nat :: !Wrote(txs, order, l, i, n)
    ensures SameAt(Serial(start, txs, order), start, l)
  {
    if order != [] {
      var init, last := order[..|order| - 1], |order| - 1;
      var tx := txs[order[last]];
      forall i: nat, n: nat ensures !Wrote(txs, init, l, i, n) {
        assert !Wrote(txs, order, l, i, n);
      }
      SerialElsewhere(start, txs, init, l);
      forall m: nat | m < Done(tx) ensures !WritesAt(tx.items[..Done(tx)][m], l) {
        assert !Wrote(txs, order, l, last, m);
      }
      ApplyElsewhere(Serial(start, txs, init), tx.items[..Done(tx)], l);
    }
  }

  lemma {:induction false} SerialLast(start: Db, txs: seq<Tx>, order: seq<nat>, l: Loc, i: nat, n: nat)
    requires forall j | 0 <= j < |order| :: order[j] < |txs|
    requires LastWrote(txs, order, l, i, n)
    ensures HoldsWrite(Serial(start, txs, order), txs[order[i]].items[n])
  {
    var init, last := order[..|order| - 1], |order| - 1;
    var tx := txs[order[last]];
    var items := tx.items[..Done(tx)];
    forall m: nat | m < |items| && (i < last || n < m) ensures !WritesAt(items[m], l) {
      assert !Wrote(txs, order, l, last, m);
    }
    if i == last {
      ApplyLast(Serial(start, txs, init), items, n);
    } else {
      forall j: nat, m: nat | Wrote(txs, init, l, j, m) ensures j < i || (j == i && m <= n) {
        assert Wrote(txs, order, l, j, m);
      }
      assert Wrote(txs, init, l, i, n);
      SerialLast(start, txs, init, l, i, n);
      ApplyElsewhere(Serial(start, txs, init), items, l);
    }
  }

  lemma SerialHolds(start: Db, txs: seq<Tx>, order: seq<nat>, l: Loc)
    requires forall i | 0 <= i < |order| :: order[i] < |txs|
    ensures HoldsLastWrite(Serial(start, txs, order), start, txs, order, l)
  {
    var store := Serial(start, txs, order);
    hide Serial;
    forall i: nat, n: nat | LastWrote(txs, order, l, i, n) ensures HoldsWrite(store, txs[order[i]].items[n]) {
      SerialLast(start, txs, order, l, i, n);
    }
    if forall i: nat, n: nat :: !Wrote(txs, order, l, i, n) {
      SerialElsewhere(start, txs, order, l);
    }
  }

  /** At every moment of every run the store holds the last of the writes made at each place, in the serial order. */
  lemma StoreHoldsLastWrites(start: Db, stripe: Loc -> Stripe, steps: seq<Step>)
    requires Run(State(start, [], []), steps, stripe).Some?
    ensures var s := Run(State(start, [], []), steps, stripe).value;
            forall l: Loc :: HoldsLastWrite(s.store, start, s.txs, s.order, l)
  {
    var s := Run(State(start, [], []), steps, stripe).value;
    ReachableHolds(start, stripe, steps);
    hide Run, AllOk, Exclusive, NoLaterUse, OrderOk, Serial, HoldsLastWrite;
    forall l: Loc ensures HoldsLastWrite(s.store, start, s.txs, s.order, l) {
      SerialHolds(start, s.txs, s.order, l);
    }
  }

  /**
   Any interleaving that lets every transaction finish its writes is a serial run of them all: each was written as
   begun, and every place holds what the last of them to write there left.
   */
  lemma Serialisable(start: Db, stripe: Loc -> Stripe, steps: seq<Step>)
    requires Run(State(start, [], []), steps, stripe).Some?
    requires var s := Run(State(start, [], []), steps, stripe).value;
             forall t, n | 0 <= t < |s.txs| && 0 <= n < |s.txs[t].items| :: Written(s.txs[t], n)
    ensures var s := Run(State(start, [], []), steps, stripe).value;
            && Permutation(s.order, |s.txs|) && s.store == SerialRun(start, s.txs, s.order)
            && (forall l: Loc :: HoldsLastWrite(s.store, start, s.txs, s.order, l))
            && |s.txs| == |Begun(steps)| && forall t | 0 <= t < |s.txs| :: s.txs[t].items == Begun(steps)[t]
  {
    var s := Run(State(start, [], []), steps, stripe).value;
    ReachableHolds(start, stripe, steps);
    ItemsAsBegun(start, stripe, steps);
    StoreHoldsLastWrites(start, stripe, steps);
    hide Run, HoldsLastWrite, Begun;
    forall t | 0 <= t < |s.txs| ensures !s.txs[t].pc.Acquiring? && Done(s.txs[t]) == |s.txs[t].items| {
      assert TxOk(s.txs[t], stripe);
      assert Written(s.txs[t], |s.txs[t].items| - 1);
    }
    SerialOfDone(start, s.txs, s.order);
  }

  // ---- No deadlock ---------------------------------------------------------------------------------

  predicate Finished(tx: Tx) {
    tx.pc.Releasing? && tx.held == {}
  }

  /** The acquiring transaction that waits for the highest stripe, among the first n. */
  lemma {:induction false} HighestWaiter(txs: seq<Tx>, stripe: Loc -> Stripe, n: nat) returns (t: nat)
    requires AllOk(txs, stripe) && n <= |txs| && exists u :: 0 <= u < n && txs[u].pc.Acquiring?
    ensures t < n && txs[t].pc.Acquiring?
    ensures forall u | 0 <= u < n && txs[u].pc.Acquiring? ::
            txs[u].locks[txs[u].pc.next] <= txs[t].locks[txs[t].pc.next]
  {
    assert forall u | 0 <= u < |txs| :: TxOk(txs[u], stripe);
    if exists u :: 0 <= u < n - 1 && txs[u].pc.Acquiring? {
      t := HighestWaiter(txs, stripe, n - 1);
      if txs[n - 1].pc.Acquiring? && txs[n - 1].locks[txs[n - 1].pc.next] > txs[t].locks[txs[t].pc.next] {
        t := n - 1;
      }
    } else {
      t := n - 1;
    }
  }

  /** While some transaction is unfinished, some transaction can move. */
  lemma NoDeadlock(s: State, start: Db, stripe: Loc -> Stripe)
    requires Inv(s, start, stripe) && exists t :: 0 <= t < |s.txs| && !Finished(s.txs[t])
    ensures exists step: Step :: !step.Begin? && Enabled(s, step, stripe)
  {
    if t :| 0 <= t < |s.txs| && !Finished(s.txs[t]) && !s.txs[t].pc.Acquiring? {
      assert TxOk(s.txs[t], stripe);
      if s.txs[t].pc.Writing? && s.txs[t].pc.done < |s.txs[t].items| {
        assert Enabled(s, WriteOne(t), stripe);
      } else {
        assert s.txs[t].pc.Writing? ==> s.txs[t].locks[0] in s.txs[t].held;
        var x :| x in s.txs[t].held;
        assert Enabled(s, Release(t, x), stripe);
      }
    } else {
      var t := HighestWaiter(s.txs, stripe, |s.txs|);
      assert TxOk(s.txs[t], stripe);
      HighestIsFree(s, stripe, t);
      assert Enabled(s, Acquire(t), stripe);
    }
  }

  lemma HighestIsFree(s: State, stripe: Loc -> Stripe, t: nat)
    requires AllOk(s.txs, stripe) && t < |s.txs| && s.txs[t].pc.Acquiring? && s.txs[t].pc.next < |s.txs[t].locks|
    requires forall u | 0 <= u < |s.txs| :: s.txs[u].pc.Acquiring? || Finished(s.txs[u])
    requires forall u | 0 <= u < |s.txs| && s.txs[u].pc.Acquiring? ::
               TxOk(s.txs[u], stripe) && s.txs[u].locks[s.txs[u].pc.next] <= s.txs[t].locks[s.txs[t].pc.next]
    ensures !Held(s, s.txs[t].locks[s.txs[t].pc.next])
  {
    var x := s.txs[t].locks[s.txs[t].pc.next];
    forall u | 0 <= u < |s.txs| ensures x !in s.txs[u].held {
      var tx := s.txs[u];
      if tx.pc.Acquiring? {
        assert forall i | 0 <= i < tx.pc.next :: tx.locks[i] < tx.locks[tx.pc.next];
      }
    }
  }

  /** Steps left to a transaction. */
  function Left(tx: Tx): (n: nat) {
    (if tx.pc.Acquiring? && tx.pc.next <= |tx.locks| then 2 * (|tx.locks| - tx.pc.next) + |tx.items| + 1
     else if tx.pc.Writing? && tx.pc.done <= |tx.items| then |tx.items| - tx.pc.done + 1 else 0) + |tx.held|
  }

  lemma AcquireShrinks(tx: Tx, stripe: Loc -> Stripe)
    requires TxOk(tx, stripe) && tx.pc.Acquiring?
    ensures var held := tx.held + {tx.locks[tx.pc.next]};
            && Left(tx.(held := held, pc := Acquiring(tx.pc.next + 1))) < Left(tx)
            && Left(tx.(held := held, pc := Writing(0))) < Left(tx)
  {
    assert |tx.held + {tx.locks[tx.pc.next]}| <= |tx.held| + 1;
  }

  lemma WriteShrinks(tx: Tx)
    requires tx.pc.Writing? && tx.pc.done < |tx.items|
    ensures Left(tx.(pc := Writing(tx.pc.done + 1))) < Left(tx)
  {
  }

  lemma ReleaseShrinks(tx: Tx, x: Stripe)
    requires x in tx.held && !tx.pc.Acquiring?
    ensures Left(tx.(held := tx.held - {x}, pc := Releasing)) < Left(tx)
  {
    assert tx.held == (tx.held - {x}) + {x};
  }

  /** Every step but a new transaction brings one transaction closer to its end and leaves the others alone. */
  lemma StepShrinks(s: State, start: Db, stripe: Loc -> Stripe, step: Step)
    requires Inv(s, start, stripe) && !step.Begin? && Enabled(s, step, stripe)
    ensures var r := Do(s, step, stripe);
            && |r.txs| == |s.txs| && step.t < |s.txs| && Left(r.txs[step.t]) < Left(s.txs[step.t])
            && forall u | 0 <= u < |s.txs| && u != step.t :: r.txs[u] == s.txs[u]
  {
    var tx := s.txs[step.t];
    assert TxOk(tx, stripe);
    hide Inv, TxOk, Held, Perform, Left;
    match step
    case Acquire(t) => AcquireShrinks(tx, stripe);
    case WriteOne(t) => WriteShrinks(tx);
    case Release(t, x) => ReleaseShrinks(tx, x);
  }
}
