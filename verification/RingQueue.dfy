/**
 LockFreeQueue (include/cynamodb/core/lock_free_queue.hpp) as a state machine over single atomic accesses.

 Any number of threads run enqueue and dequeue; a step is one load, one compare-and-swap or one store of one
 thread.  A load may return any value the location has held or passed (every location only grows), so stale
 reads under relaxed ordering are covered, and a weak compare-and-swap may fail for no reason.  Positions do
 not wrap around.

 Beside the source's data the state records the value that took each ticket (`taken`) and what the dequeues
 returned (`out`).
 */
module RingQueue {
  import opened Bytes

  datatype Cell<T> = Cell(sequence: nat, data: Option<T>)

  datatype Pc<T> =
    | Idle
    | EnqStart(x: T)
    | EnqHave(x: T, pos: nat)
    | EnqSaw(x: T, pos: nat)
    | EnqOwn(x: T, pos: nat)
    | EnqStored(x: T, pos: nat)
    | DeqStart
    | DeqHave(pos: nat)
    | DeqSaw(pos: nat)
    | DeqOwn(pos: nat)
    | DeqRead(x: T, pos: nat)

  datatype Delivery<T> = Delivery(ticket: nat, value: T)

  datatype State<T> = State(cells: seq<Cell<T>>, enq: nat, deq: nat, threads: map<nat, Pc<T>>, taken: seq<T>,
      out: seq<Delivery<T>>)

  /** Thread t's next access; `seen` is what a load returns. */
  datatype Step<T> =
    | CallEnqueue(t: nat, x: T)
    | CallDequeue(t: nat)
    | LoadPosition(t: nat, seen: nat)
    | LoadSequence(t: nat, seen: nat)
    | CompareAndSwap(t: nat, seen: nat, spurious: bool)
    | MoveData(t: nat)
    | StoreSequence(t: nat)

  function PcOf<T>(s: State<T>, t: nat): (p: Pc<T>) {
    if t in s.threads then s.threads[t] else Idle
  }

  function Seq<T>(s: State<T>, i: nat): (n: nat)
    requires s.cells != []
  {
    s.cells[i % |s.cells|].sequence
  }

  function Data<T>(s: State<T>, i: nat): (d: Option<T>)
    requires s.cells != []
  {
    s.cells[i % |s.cells|].data
  }

  predicate Enabled<T>(s: State<T>, step: Step<T>)
    requires s.cells != []
  {
    var p := PcOf(s, step.t);
    match step
    case CallEnqueue(_, _) => p.Idle?
    case CallDequeue(_) => p.Idle?
    case LoadPosition(_, seen) => (p.EnqStart? && seen <= s.enq) || (p.DeqStart? && seen <= s.deq)
    case LoadSequence(_, seen) => (p.EnqHave? || p.DeqHave?) && seen <= Seq(s, p.pos)
    case CompareAndSwap(_, seen, _) => (p.EnqSaw? && seen <= s.enq) || (p.DeqSaw? && seen <= s.deq)
    case MoveData(_) => p.EnqOwn? || (p.DeqOwn? && Data(s, p.pos).Some?)
    case StoreSequence(_) => p.EnqStored? || p.DeqRead?
  }

  function Goto<T>(s: State<T>, t: nat, p: Pc<T>): (r: State<T>) {
    s.(threads := s.threads[t := p])
  }

  function SetCell<T>(s: State<T>, i: nat, c: Cell<T>): (r: State<T>)
    requires s.cells != []
  {
    s.(cells := s.cells[i % |s.cells| := c])
  }

  function DoLoadSequence<T>(s: State<T>, t: nat, seen: nat): (r: State<T>) {
    match PcOf(s, t)
    case EnqHave(x, pos) =>
      Goto(s, t, if seen == pos then EnqSaw(x, pos) else if seen < pos then Idle else EnqStart(x))
    case DeqHave(pos) =>
      Goto(s, t, if seen == pos + 1 then DeqSaw(pos) else if seen < pos + 1 then Idle else DeqStart)
    case _ => s
  }

  function DoCompareAndSwap<T>(s: State<T>, t: nat, seen: nat, spurious: bool): (r: State<T>) {
    match PcOf(s, t)
    case EnqSaw(x, pos) =>
      if spurious || pos != s.enq then Goto(s, t, EnqHave(x, seen))
      else Goto(s, t, EnqOwn(x, pos)).(enq := pos + 1, taken := s.taken + [x])
    case DeqSaw(pos) =>
      if spurious || pos != s.deq then Goto(s, t, DeqHave(seen))
      else Goto(s, t, DeqOwn(pos)).(deq := pos + 1)
    case _ => s
  }

  function DoMoveData<T>(s: State<T>, t: nat): (r: State<T>)
    requires s.cells != []
  {
    match PcOf(s, t)
    case EnqOwn(x, pos) => Goto(SetCell(s, pos, Cell(Seq(s, pos), Some(x))), t, EnqStored(x, pos))
    case DeqOwn(pos) => if Data(s, pos).Some? then Goto(s, t, DeqRead(Data(s, pos).value, pos)) else s
    case _ => s
  }

  function DoStoreSequence<T>(s: State<T>, t: nat): (r: State<T>)
    requires s.cells != []
  {
    match PcOf(s, t)
    case EnqStored(x, pos) => Goto(SetCell(s, pos, Cell(pos + 1, Data(s, pos))), t, Idle)
    case DeqRead(x, pos) =>
      Goto(SetCell(s, pos, Cell(pos + |s.cells|, Data(s, pos))), t, Idle).(out := s.out + [Delivery(pos, x)])
    case _ => s
  }

  function Do<T>(s: State<T>, step: Step<T>): (r: State<T>)
    requires s.cells != [] && Enabled(s, step)
  {
    match step
    case CallEnqueue(t, x) => Goto(s, t, EnqStart(x))
    case CallDequeue(t) => Goto(s, t, DeqStart)
    case LoadPosition(t, seen) =>
      Goto(s, t, if PcOf(s, t).EnqStart? then EnqHave(PcOf(s, t).x, seen) else DeqHave(seen))
    case LoadSequence(t, seen) => DoLoadSequence(s, t, seen)
    case CompareAndSwap(t, seen, spurious) => DoCompareAndSwap(s, t, seen, spurious)
    case MoveData(t) => DoMoveData(s, t)
    case StoreSequence(t) => DoStoreSequence(s, t)
  }

  function Initial<T>(capacity: nat): (s: State<T>)
    ensures |s.cells| == capacity
  {
    State(seq(capacity, i requires 0 <= i < capacity => Cell(i, None)), 0, 0, map[], [], [])
  }

  function Run<T>(s: State<T>, steps: seq<Step<T>>): (r: Option<State<T>>) {
    if steps == [] then Some(s)
    else
      var p := Run(s, steps[..|steps| - 1]);
      if p.Some? && p.value.cells != [] && Enabled(p.value, steps[|steps| - 1]) then
          Some(Do(p.value, steps[|steps| - 1])) else None
  }

  // ---- The invariant -------------------------------------------------------------------------------

  lemma {:induction false} Multiples(d: nat, n: nat)
    requires d > 0
    ensures d * n >= n
  {
    assert d * n == (d - 1) * n + n;
  }

  lemma Apart(a: nat, b: nat, r: nat, n: nat)
    ensures a > b ==> a * n + r >= b * n + r + n
  {
    if a > b {
      Multiples(a - b, n);
      assert (a - b) * n == a * n - b * n;
    }
  }

  /** Tickets of one cell are whole laps apart. */
  lemma SameCell(i: nat, p: nat, n: nat)
    requires n > 0 && i % n == p % n
    ensures i == p || i >= p + n || i + n <= p
  {
    Apart(i / n, p / n, i % n, n);
    Apart(p / n, i / n, i % n, n);
  }

  lemma ModUnique(q: nat, r: nat, n: nat)
    requires r < n
    ensures (q * n + r) % n == r
  {
    var x := q * n + r;
    Apart(x / n, q, 0, n);
    Apart(q, x / n, 0, n);
  }

  lemma LapBack(i: nat, n: nat)
    requires 0 < n <= i
    ensures (i - n) % n == i % n
  {
    Apart(1, i / n, 0, n);
    assert i - n == (i / n - 1) * n + i % n;
    ModUnique(i / n - 1, i % n, n);
  }

  predicate EnqOwner<T>(p: Pc<T>) {
    p.EnqOwn? || p.EnqStored?
  }

  predicate DeqOwner<T>(p: Pc<T>) {
    p.DeqOwn? || p.DeqRead?
  }

  /** Every cell is at the lap its tickets have reached. */
  ghost predicate Laps<T>(s: State<T>)
    requires s.cells != []
  {
    && (forall i: nat | i < |s.cells| :: i <= Seq(s, i))
    && (forall i: nat | i >= s.enq :: Seq(s, i) <= i)
    && (forall i: nat | i >= s.deq :: Seq(s, i) <= i + 1)
  }

  /** A ticket not yet finished has a thread at work on it. */
  ghost predicate Owned<T>(s: State<T>)
    requires s.cells != []
  {
    && (forall i: nat | i < s.enq ::
        Seq(s, i) >= i + 1 || (Seq(s, i) == i && exists t :: EnqOwner(PcOf(s, t)) && PcOf(s, t).pos == i))
    && (forall i: nat | i < s.deq ::
          Seq(s, i) >= i + |s.cells| || (Seq(s, i) == i + 1 && exists t :: DeqOwner(PcOf(s, t)) && PcOf(s, t).pos == i))
  }

  /** What a thread may rely on at each point. */
  ghost predicate ThreadOk<T>(s: State<T>, p: Pc<T>)
    requires s.cells != []
  {
    match p
    case EnqSaw(x, pos) => Seq(s, pos) >= pos
    case EnqOwn(x, pos) => pos < s.enq && pos < |s.taken| && Seq(s, pos) == pos && s.taken[pos] == x
    case EnqStored(x, pos) => pos < s.enq && pos < |s.taken| && Seq(s, pos) == pos && s.taken[pos] == x
        && Data(s, pos) == Some(x)
    case DeqSaw(pos) => Seq(s, pos) >= pos + 1
    case DeqOwn(pos) => pos < s.deq && pos < |s.taken| && Seq(s, pos) == pos + 1 && Data(s, pos) == Some(s.taken[pos])
    case DeqRead(x, pos) => pos < s.deq && pos < |s.taken| && Seq(s, pos) == pos + 1 && x == s.taken[pos]
    case _ => true
  }

  ghost predicate ThreadsOk<T>(s: State<T>)
    requires s.cells != []
  {
    && (forall t: nat :: ThreadOk(s, PcOf(s, t)))
    && (forall t: nat, u: nat | EnqOwner(PcOf(s, t)) && EnqOwner(PcOf(s, u))
        && PcOf(s, t).pos == PcOf(s, u).pos :: t == u)
    && (forall t: nat, u: nat | DeqOwner(PcOf(s, t)) && DeqOwner(PcOf(s, u))
        && PcOf(s, t).pos == PcOf(s, u).pos :: t == u)
  }

  /** A full cell holds its ticket's value. */
  ghost predicate FullHolds<T>(s: State<T>)
    requires s.cells != []
  {
    forall i: nat | i < |s.taken| && Seq(s, i) == i + 1 :: Data(s, i) == Some(s.taken[i])
  }

  /** Every delivery is the value of its own ticket, and no ticket is delivered twice or while being read. */
  ghost predicate Delivered<T>(s: State<T>) {
    && (forall i | 0 <= i < |s.out| ::
        s.out[i].ticket < s.deq && s.out[i].ticket < |s.taken| && s.out[i].value == s.taken[s.out[i].ticket])
    && (forall i, j | 0 <= i < j < |s.out| :: s.out[i].ticket != s.out[j].ticket)
    && (forall i, t: nat | 0 <= i < |s.out| && DeqOwner(PcOf(s, t)) :: s.out[i].ticket != PcOf(s, t).pos)
  }

  predicate InOut<T>(out: seq<Delivery<T>>, ticket: nat) {
    exists j :: 0 <= j < |out| && out[j].ticket == ticket
  }

  /** A claimed ticket is delivered, or its claimant is still at work: nothing is lost. */
  ghost predicate Conserved<T>(s: State<T>) {
    forall i: nat | i < s.deq :: InOut(s.out, i) || exists t :: DeqOwner(PcOf(s, t)) && PcOf(s, t).pos == i
  }

  ghost predicate Inv<T>(s: State<T>) {
    && |s.cells| >= 2
    && |s.taken| == s.enq && s.deq <= s.enq <= s.deq + |s.cells|
    && Laps(s) && Owned(s) && ThreadsOk(s) && FullHolds(s) && Delivered(s) && Conserved(s)
  }

  // ---- Steps that only move one thread -------------------------------------------------------------

  predicate Owner<T>(p: Pc<T>) {
    EnqOwner(p) || DeqOwner(p)
  }

  lemma PcAfter<T>(s: State<T>, t: nat, p: Pc<T>)
    ensures forall u: nat :: PcOf(Goto(s, t, p), u) == if u == t then p else PcOf(s, u)
    ensures var r := Goto(s, t, p);
            r.cells == s.cells && r.enq == s.enq && r.deq == s.deq && r.taken == s.taken && r.out == s.out
  {
  }

  /** A thread that owns no ticket moves to a point where it owns none. */
  lemma LocalKeeps<T>(s: State<T>, t: nat, p: Pc<T>)
    requires Inv(s) && !Owner(PcOf(s, t)) && !Owner(p) && ThreadOk(s, p)
    ensures Inv(Goto(s, t, p))
  {
    hide Goto, PcOf, Seq, Data, Laps, FullHolds, Delivered, Owned;
    var r := Goto(s, t, p);
    PcAfter(s, t, p);
    SameRing(s, r);
    ReadsDelivered(s, r);
    OwnedFrame(s, r);
    ConservedFrame(s, r);
    assert ThreadsOk(r) by {
      forall u: nat ensures ThreadOk(r, PcOf(r, u)) {
        SameCellsSameThread(s, r, PcOf(r, u));
        assert u != t ==> ThreadOk(s, PcOf(s, u));
      }
    }
  }

  lemma SameCellsSameThread<T>(s: State<T>, r: State<T>, p: Pc<T>)
    requires s.cells != [] && r.cells == s.cells && r.enq == s.enq && r.deq == s.deq && r.taken == s.taken
    ensures ThreadOk(r, p) <==> ThreadOk(s, p)
  {
  }

  /** Owners stay owners, unless their ticket is finished. */
  lemma OwnedFrame<T>(s: State<T>, r: State<T>)
    requires s.cells != [] && |r.cells| == |s.cells| && Owned(s) && r.enq == s.enq && r.deq == s.deq
    requires forall i: nat | i < r.enq && Seq(r, i) < i + 1 :: Seq(r, i) == Seq(s, i)
    requires forall i: nat | i < r.deq && Seq(r, i) < i + |r.cells| :: Seq(r, i) == Seq(s, i)
    requires forall u: nat | EnqOwner(PcOf(s, u)) && Seq(r, PcOf(s, u).pos) < PcOf(s, u).pos + 1 ::
               EnqOwner(PcOf(r, u)) && PcOf(r, u).pos == PcOf(s, u).pos
    requires forall u: nat | DeqOwner(PcOf(s, u)) && Seq(r, PcOf(s, u).pos) < PcOf(s, u).pos + |r.cells| ::
               DeqOwner(PcOf(r, u)) && PcOf(r, u).pos == PcOf(s, u).pos
    ensures Owned(r)
  {
    hide PcOf, Seq;
    forall i: nat | i < r.enq && Seq(r, i) < i + 1
      ensures Seq(r, i) == i && exists u :: EnqOwner(PcOf(r, u)) && PcOf(r, u).pos == i
    {
      var u :| EnqOwner(PcOf(s, u)) && PcOf(s, u).pos == i;
      assert EnqOwner(PcOf(r, u)) && PcOf(r, u).pos == i;
    }
    forall i: nat | i < r.deq && Seq(r, i) < i + |r.cells|
      ensures Seq(r, i) == i + 1 && exists u :: DeqOwner(PcOf(r, u)) && PcOf(r, u).pos == i
    {
      var u :| DeqOwner(PcOf(s, u)) && PcOf(s, u).pos == i;
      assert DeqOwner(PcOf(r, u)) && PcOf(r, u).pos == i;
    }
  }

  lemma ConservedFrame<T>(s: State<T>, r: State<T>)
    requires Conserved(s) && r.deq == s.deq && |s.out| <= |r.out| && r.out[..|s.out|] == s.out
    requires forall u: nat | DeqOwner(PcOf(s, u)) ::
               (DeqOwner(PcOf(r, u)) && PcOf(r, u).pos == PcOf(s, u).pos) || InOut(r.out, PcOf(s, u).pos)
    ensures Conserved(r)
  {
    hide PcOf;
    forall i: nat | i < r.deq && !InOut(r.out, i) ensures exists t :: DeqOwner(PcOf(r, t)) && PcOf(r, t).pos == i {
      assert forall j | 0 <= j < |s.out| :: r.out[j] == s.out[j];
      assert !InOut(s.out, i);
      var u :| DeqOwner(PcOf(s, u)) && PcOf(s, u).pos == i;
      assert DeqOwner(PcOf(r, u)) && PcOf(r, u).pos == i;
    }
  }

  // ---- Taking a ticket -----------------------------------------------------------------------------

  /** The next ticket's cell is free when some thread has seen it free. */
  lemma NextIsFree<T>(s: State<T>)
    requires Inv(s) && Seq(s, s.enq) >= s.enq
    ensures Seq(s, s.enq) == s.enq && s.enq < s.deq + |s.cells|
  {
    var n := |s.cells|;
    if s.enq >= n {
      LapBack(s.enq, n);
      assert Seq(s, s.enq - n) == Seq(s, s.enq);
      hide Seq;
    }
  }

  lemma EnqueueWins<T>(s: State<T>, t: nat, x: T, pos: nat)
    requires Inv(s) && PcOf(s, t) == EnqSaw(x, pos) && pos == s.enq
    ensures Inv(Goto(s, t, EnqOwn(x, pos)).(enq := pos + 1, taken := s.taken + [x]))
  {
    var g := Goto(s, t, EnqOwn(x, pos));
    var r := g.(enq := pos + 1, taken := s.taken + [x]);
    PcAfter(s, t, EnqOwn(x, pos));
    assert ThreadOk(s, PcOf(s, t));
    NextIsFree(s);
    assert forall i: nat :: Seq(r, i) == Seq(s, i) && Data(r, i) == Data(s, i);
    assert forall u: nat :: PcOf(r, u) == PcOf(g, u);
    hide Goto, PcOf, Seq, Data;
    assert Laps(r);
    assert FullHolds(r);
    assert Delivered(r);
    ConservedFrame(s, r);
    EnqueueWinsOwned(s, r, t);
    EnqueueWinsThreads(s, r, t);
  }

  lemma EnqueueWinsOwned<T>(s: State<T>, r: State<T>, t: nat)
    requires Inv(s) && r.cells == s.cells && r.enq == s.enq + 1 && r.deq == s.deq && Seq(s, s.enq) == s.enq
    requires PcOf(s, t).EnqSaw? && PcOf(r, t).EnqOwn? && PcOf(r, t).pos == s.enq
    requires forall u: nat | u != t :: PcOf(r, u) == PcOf(s, u)
    ensures Owned(r)
  {
    hide Laps, ThreadsOk, FullHolds, Delivered, PcOf;
    assert forall i: nat :: Seq(r, i) == Seq(s, i);
    forall i: nat | i < r.enq && Seq(r, i) < i + 1
      ensures Seq(r, i) == i && exists u :: EnqOwner(PcOf(r, u)) && PcOf(r, u).pos == i
    {
      if i == s.enq {
        assert EnqOwner(PcOf(r, t)) && PcOf(r, t).pos == i;
      } else {
        var u :| EnqOwner(PcOf(s, u)) && PcOf(s, u).pos == i;
        assert EnqOwner(PcOf(r, u)) && PcOf(r, u).pos == i;
      }
    }
    forall i: nat | i < r.deq && Seq(r, i) < i + |r.cells|
      ensures Seq(r, i) == i + 1 && exists u :: DeqOwner(PcOf(r, u)) && PcOf(r, u).pos == i
    {
      var u :| DeqOwner(PcOf(s, u)) && PcOf(s, u).pos == i;
      assert DeqOwner(PcOf(r, u)) && PcOf(r, u).pos == i;
    }
  }

  lemma EnqueueWinsThreads<T>(s: State<T>, r: State<T>, t: nat)
    requires Inv(s) && r.cells == s.cells && r.enq == s.enq + 1 && r.deq == s.deq && Seq(s, s.enq) == s.enq
    requires PcOf(s, t).EnqSaw? && PcOf(r, t) == EnqOwn(PcOf(s, t).x, s.enq) && r.taken == s.taken + [PcOf(s, t).x]
    requires forall u: nat | u != t :: PcOf(r, u) == PcOf(s, u)
    ensures ThreadsOk(r)
  {
    hide Laps, Owned, FullHolds, Delivered, PcOf;
    assert forall i: nat :: Seq(r, i) == Seq(s, i) && Data(r, i) == Data(s, i);
    hide Seq, Data;
    forall u: nat ensures ThreadOk(r, PcOf(r, u)) {
      assert ThreadOk(s, PcOf(s, u));
    }
    forall u: nat | EnqOwner(PcOf(s, u)) ensures PcOf(s, u).pos < s.enq {
      assert ThreadOk(s, PcOf(s, u));
    }
  }

  lemma DequeueWins<T>(s: State<T>, t: nat, pos: nat)
    requires Inv(s) && PcOf(s, t) == DeqSaw(pos) && pos == s.deq
    ensures Inv(Goto(s, t, DeqOwn(pos)).(deq := pos + 1))
  {
    var g := Goto(s, t, DeqOwn(pos));
    var r := g.(deq := pos + 1);
    PcAfter(s, t, DeqOwn(pos));
    assert ThreadOk(s, PcOf(s, t));
    assert Seq(s, pos) == pos + 1 && pos < s.enq;
    assert forall i: nat :: Seq(r, i) == Seq(s, i) && Data(r, i) == Data(s, i);
    assert forall u: nat :: PcOf(r, u) == PcOf(g, u);
    hide Goto, PcOf, Seq, Data;
    assert Laps(r);
    assert FullHolds(r);
    assert Delivered(r);
    DequeueWinsConserved(s, r, t);
    DequeueWinsOwned(s, r, t);
    DequeueWinsThreads(s, r, t);
  }

  lemma DequeueWinsConserved<T>(s: State<T>, r: State<T>, t: nat)
    requires Conserved(s) && r.deq == s.deq + 1 && r.out == s.out
    requires PcOf(s, t).DeqSaw? && PcOf(r, t).DeqOwn? && PcOf(r, t).pos == s.deq
    requires forall u: nat | u != t :: PcOf(r, u) == PcOf(s, u)
    ensures Conserved(r)
  {
    hide PcOf;
    forall i: nat | i < r.deq && !InOut(r.out, i) ensures exists u :: DeqOwner(PcOf(r, u)) && PcOf(r, u).pos == i {
      if i == s.deq {
        assert DeqOwner(PcOf(r, t)) && PcOf(r, t).pos == i;
      } else {
        var u :| DeqOwner(PcOf(s, u)) && PcOf(s, u).pos == i;
        assert DeqOwner(PcOf(r, u)) && PcOf(r, u).pos == i;
      }
    }
  }

  lemma DequeueWinsOwned<T>(s: State<T>, r: State<T>, t: nat)
    requires Inv(s) && r.cells == s.cells && r.enq == s.enq && r.deq == s.deq + 1 && Seq(s, s.deq) == s.deq + 1
    requires PcOf(s, t).DeqSaw? && PcOf(r, t).DeqOwn? && PcOf(r, t).pos == s.deq
    requires forall u: nat | u != t :: PcOf(r, u) == PcOf(s, u)
    ensures Owned(r)
  {
    hide Laps, ThreadsOk, FullHolds, Delivered, PcOf;
    assert forall i: nat :: Seq(r, i) == Seq(s, i);
    forall i: nat | i < r.enq && Seq(r, i) < i + 1
      ensures Seq(r, i) == i && exists u :: EnqOwner(PcOf(r, u)) && PcOf(r, u).pos == i
    {
      var u :| EnqOwner(PcOf(s, u)) && PcOf(s, u).pos == i;
      assert EnqOwner(PcOf(r, u)) && PcOf(r, u).pos == i;
    }
    forall i: nat | i < r.deq && Seq(r, i) < i + |r.cells|
      ensures Seq(r, i) == i + 1 && exists u :: DeqOwner(PcOf(r, u)) && PcOf(r, u).pos == i
    {
      if i == s.deq {
        assert DeqOwner(PcOf(r, t)) && PcOf(r, t).pos == i;
      } else {
        var u :| DeqOwner(PcOf(s, u)) && PcOf(s, u).pos == i;
        assert DeqOwner(PcOf(r, u)) && PcOf(r, u).pos == i;
      }
    }
  }

  lemma DequeueWinsThreads<T>(s: State<T>, r: State<T>, t: nat)
    requires Inv(s) && r.cells == s.cells && r.enq == s.enq && r.deq == s.deq + 1 && r.taken == s.taken
    requires Seq(s, s.deq) == s.deq + 1 && s.deq < s.enq
    requires PcOf(s, t).DeqSaw? && PcOf(r, t) == DeqOwn(s.deq)
    requires forall u: nat | u != t :: PcOf(r, u) == PcOf(s, u)
    ensures ThreadsOk(r)
  {
    hide Laps, Owned, Delivered, PcOf;
    assert forall i: nat :: Seq(r, i) == Seq(s, i) && Data(r, i) == Data(s, i);
    hide Seq, Data;
    assert Data(s, s.deq) == Some(s.taken[s.deq]);
    forall u: nat ensures ThreadOk(r, PcOf(r, u)) {
      assert ThreadOk(s, PcOf(s, u));
    }
    forall u: nat | DeqOwner(PcOf(s, u)) ensures PcOf(s, u).pos < s.deq {
      assert ThreadOk(s, PcOf(s, u));
    }
  }

  // ---- Working on a ticket's cell ------------------------------------------------------------------

  predicate Shares<T>(s: State<T>, i: nat, p: nat)
    requires s.cells != []
  {
    i % |s.cells| == p % |s.cells|
  }

  lemma CellAfter<T>(s: State<T>, p: nat, c: Cell<T>)
    requires s.cells != []
    ensures var r := SetCell(s, p, c);
            && r == s.(cells := r.cells) && |r.cells| == |s.cells|
            && forall i: nat ::
                 && Seq(r, i) == (if Shares(s, i, p) then c.sequence else Seq(s, i))
                 && Data(r, i) == (if Shares(s, i, p) then c.data else Data(s, i))
                 && (Shares(s, i, p) ==> Seq(s, i) == Seq(s, p) && Data(s, i) == Data(s, p))
                 && (Shares(s, i, p) ==> i == p || i >= p + |s.cells| || i + |s.cells| <= p)
    ensures Shares(s, p, p)
  {
    forall i: nat | Shares(s, i, p) ensures i == p || i >= p + |s.cells| || i + |s.cells| <= p {
      SameCell(i, p, |s.cells|);
    }
  }

  /** What a step on one cell tells the rest of the proof, with the arithmetic done. */
  ghost predicate CellStep<T>(s: State<T>, r: State<T>, t: nat, p: nat, c: Cell<T>)
    requires s.cells != [] && r.cells != []
  {
    && |r.cells| == |s.cells| && r.enq == s.enq && r.deq == s.deq && r.taken == s.taken
    && (forall i: nat ::
         && Seq(r, i) == (if Shares(s, i, p) then c.sequence else Seq(s, i))
         && Data(r, i) == (if Shares(s, i, p) then c.data else Data(s, i))
         && (Shares(s, i, p) ==> Seq(s, i) == Seq(s, p) && Data(s, i) == Data(s, p))
         && (Shares(s, i, p) ==> i == p || i >= p + |s.cells| || i + |s.cells| <= p))
    && Shares(s, p, p)
    && (forall u: nat | u != t :: PcOf(r, u) == PcOf(s, u))
  }

  lemma CellStepOf<T>(s: State<T>, t: nat, p: nat, c: Cell<T>, pc: Pc<T>, out: seq<Delivery<T>>)
    requires s.cells != []
    ensures var r := Goto(SetCell(s, p, c), t, pc).(out := out);
            r.cells != [] && CellStep(s, r, t, p, c) && PcOf(r, t) == pc && r.out == out
  {
    CellAfter(s, p, c);
    PcAfter(SetCell(s, p, c), t, pc);
    var g := Goto(SetCell(s, p, c), t, pc);
    var r := g.(out := out);
    assert forall u: nat :: PcOf(r, u) == PcOf(g, u);
    assert forall u: nat :: PcOf(SetCell(s, p, c), u) == PcOf(s, u);
    assert forall i: nat :: Seq(r, i) == Seq(SetCell(s, p, c), i) && Data(r, i) == Data(SetCell(s, p, c), i);
  }

  /** enqueue stores its data. */
  lemma EnqueueStores<T>(s: State<T>, t: nat, x: T, pos: nat)
    requires Inv(s) && PcOf(s, t) == EnqOwn(x, pos)
    ensures Inv(Goto(SetCell(s, pos, Cell(Seq(s, pos), Some(x))), t, EnqStored(x, pos)))
  {
    hide Goto, SetCell, PcOf, Seq, Data, Shares, Laps, FullHolds, Delivered, Owned, ThreadsOk, Conserved, CellStep;
    var c := Cell(Seq(s, pos), Some(x));
    var r := Goto(SetCell(s, pos, c), t, EnqStored(x, pos));
    CellStepOf(s, t, pos, c, EnqStored(x, pos), s.out);
    OutStays(s, pos, c, t, EnqStored(x, pos));
    StoresRest(s, r, t, x, pos, c);
    StoresOwned(s, r, t, pos, c);
    StoresThreads(s, r, t, pos, c);
  }

  lemma StoresRest<T>(s: State<T>, r: State<T>, t: nat, x: T, pos: nat, c: Cell<T>)
    requires Inv(s) && r.cells != [] && CellStep(s, r, t, pos, c) && r.out == s.out && c == Cell(Seq(s, pos), Some(x))
    requires PcOf(s, t) == EnqOwn(x, pos) && PcOf(r, t) == EnqStored(x, pos)
    ensures Laps(r) && FullHolds(r) && Delivered(r) && Conserved(r)
  {
    hide PcOf, Seq, Data, Shares;
    assert ThreadOk(s, PcOf(s, t));
    ConservedFrame(s, r);
  }

  lemma StoresOwned<T>(s: State<T>, r: State<T>, t: nat, pos: nat, c: Cell<T>)
    requires Inv(s) && r.cells != [] && CellStep(s, r, t, pos, c) && c.sequence == Seq(s, pos)
    requires PcOf(s, t).EnqOwn? && PcOf(s, t).pos == pos && PcOf(r, t).EnqStored? && PcOf(r, t).pos == pos
    ensures Owned(r)
  {
    hide Laps, FullHolds, Delivered, Owned, PcOf, Seq, Data, Shares;
    OwnedFrame(s, r);
  }

  lemma StoresThreads<T>(s: State<T>, r: State<T>, t: nat, pos: nat, c: Cell<T>)
    requires Inv(s) && r.cells != [] && CellStep(s, r, t, pos, c) && c.sequence == Seq(s, pos)
    requires PcOf(s, t).EnqOwn? && PcOf(s, t).pos == pos && c.data == Some(PcOf(s, t).x)
    requires PcOf(r, t) == EnqStored(PcOf(s, t).x, pos)
    ensures ThreadsOk(r)
  {
    hide Laps, Owned, FullHolds, Delivered, PcOf, Seq, Data, Shares;
    assert ThreadOk(s, PcOf(s, t));
    forall u: nat ensures ThreadOk(r, PcOf(r, u)) {
      assert ThreadOk(s, PcOf(s, u));
    }
  }

  /** dequeue moves the data out. */
  lemma DequeueReads<T>(s: State<T>, t: nat, pos: nat)
    requires Inv(s) && PcOf(s, t) == DeqOwn(pos)
    ensures Data(s, pos).Some? && Inv(Goto(s, t, DeqRead(Data(s, pos).value, pos)))
  {
    hide Goto, PcOf, Seq, Data, Laps, FullHolds, Delivered, Owned;
    assert ThreadOk(s, PcOf(s, t));
    var p := DeqRead(Data(s, pos).value, pos);
    var r := Goto(s, t, p);
    PcAfter(s, t, p);
    SameRing(s, r);
    ReadsDelivered(s, r);
    OwnedFrame(s, r);
    ConservedFrame(s, r);
    ReadsThreads(s, r, t);
  }

  lemma SameRing<T>(s: State<T>, r: State<T>)
    requires s.cells != [] && r.cells == s.cells && r.enq == s.enq && r.deq == s.deq && r.taken == s.taken
    ensures forall i: nat :: Seq(r, i) == Seq(s, i) && Data(r, i) == Data(s, i)
    ensures (Laps(s) ==> Laps(r)) && (FullHolds(s) ==> FullHolds(r))
  {
    assert forall i: nat :: Seq(r, i) == Seq(s, i) && Data(r, i) == Data(s, i);
    hide Seq, Data;
  }

  lemma ReadsDelivered<T>(s: State<T>, r: State<T>)
    requires Delivered(s) && r.out == s.out && r.deq == s.deq && r.taken == s.taken
    requires forall u: nat :: DeqOwner(PcOf(r, u)) ==> DeqOwner(PcOf(s, u)) && PcOf(r, u).pos == PcOf(s, u).pos
    ensures Delivered(r)
  {
    hide PcOf;
  }

  lemma ReadsThreads<T>(s: State<T>, r: State<T>, t: nat)
    requires Inv(s) && r.cells == s.cells && r.enq == s.enq && r.deq == s.deq && r.taken == s.taken
    requires PcOf(s, t).DeqOwn? && PcOf(r, t).DeqRead? && PcOf(r, t).pos == PcOf(s, t).pos
    requires Data(s, PcOf(s, t).pos) == Some(PcOf(r, t).x)
    requires forall u: nat | u != t :: PcOf(r, u) == PcOf(s, u)
    ensures ThreadsOk(r)
  {
    hide Laps, Owned, FullHolds, Delivered, PcOf;
    assert forall i: nat :: Seq(r, i) == Seq(s, i) && Data(r, i) == Data(s, i);
    hide Seq, Data;
    forall u: nat ensures ThreadOk(r, PcOf(r, u)) {
      assert ThreadOk(s, PcOf(s, u));
    }
  }

  // ---- Finishing a ticket --------------------------------------------------------------------------

  lemma EnqueuePublishes<T>(s: State<T>, t: nat, x: T, pos: nat)
    requires Inv(s) && PcOf(s, t) == EnqStored(x, pos)
    ensures Inv(Goto(SetCell(s, pos, Cell(pos + 1, Data(s, pos))), t, Idle))
  {
    hide Goto, SetCell, PcOf, Seq, Data, Shares, Laps, FullHolds, Delivered, Owned, ThreadsOk, Conserved, CellStep;
    var c := Cell(pos + 1, Data(s, pos));
    var r := Goto(SetCell(s, pos, c), t, Idle);
    CellStepOf(s, t, pos, c, Idle, s.out);
    OutStays(s, pos, c, t, Idle);
    PublishesRest(s, r, t, pos, c);
    PublishesOwned(s, r, t, pos, c);
    PublishesThreads(s, r, t, pos, c);
  }

  lemma OutStays<T>(s: State<T>, p: nat, c: Cell<T>, t: nat, pc: Pc<T>)
    requires s.cells != []
    ensures Goto(SetCell(s, p, c), t, pc).(out := s.out) == Goto(SetCell(s, p, c), t, pc)
  {
  }

  lemma PublishesRest<T>(s: State<T>, r: State<T>, t: nat, pos: nat, c: Cell<T>)
    requires Inv(s) && r.cells != [] && CellStep(s, r, t, pos, c) && r.out == s.out && c == Cell(pos + 1, Data(s, pos))
    requires PcOf(s, t).EnqStored? && PcOf(s, t).pos == pos && PcOf(r, t).Idle?
    ensures Seq(s, pos) == pos
    ensures Laps(r) && FullHolds(r) && Delivered(r) && Conserved(r)
  {
    hide PcOf, Seq, Data, Shares;
    assert ThreadOk(s, PcOf(s, t));
    ConservedFrame(s, r);
  }

  lemma PublishesOwned<T>(s: State<T>, r: State<T>, t: nat, pos: nat, c: Cell<T>)
    requires Inv(s) && r.cells != [] && CellStep(s, r, t, pos, c) && Seq(s, pos) == pos && c.sequence == pos + 1
    requires PcOf(s, t).EnqStored? && PcOf(s, t).pos == pos && PcOf(r, t).Idle?
    ensures Owned(r)
  {
    hide Laps, FullHolds, Delivered, PcOf, Seq, Data, Shares;
    assert ThreadOk(s, PcOf(s, t));
    OwnedFrame(s, r);
  }

  lemma PublishesThreads<T>(s: State<T>, r: State<T>, t: nat, pos: nat, c: Cell<T>)
    requires Inv(s) && r.cells != [] && CellStep(s, r, t, pos, c) && Seq(s, pos) == pos
             && c == Cell(pos + 1, Data(s, pos))
    requires PcOf(s, t).EnqStored? && PcOf(s, t).pos == pos && PcOf(r, t).Idle?
    ensures ThreadsOk(r)
  {
    hide Laps, Owned, FullHolds, Delivered, PcOf, Seq, Data, Shares;
    forall u: nat ensures ThreadOk(r, PcOf(r, u)) {
      assert ThreadOk(s, PcOf(s, u));
    }
  }

  lemma DequeueReleases<T>(s: State<T>, t: nat, x: T, pos: nat)
    requires Inv(s) && PcOf(s, t) == DeqRead(x, pos)
    ensures Inv(Goto(SetCell(s, pos, Cell(pos + |s.cells|, Data(s, pos))), t, Idle).(out := s.out + [Delivery(pos, x)]))
  {
    var c := Cell(pos + |s.cells|, Data(s, pos));
    var r := Goto(SetCell(s, pos, c), t, Idle).(out := s.out + [Delivery(pos, x)]);
    CellStepOf(s, t, pos, c, Idle, s.out + [Delivery(pos, x)]);
    hide Goto, SetCell, PcOf, Seq, Data, Shares;
    assert ThreadOk(s, PcOf(s, t));
    ReleasesLaps(s, r, t, pos, c);
    ReleasesOwned(s, r, t, pos, c);
    ReleasesThreads(s, r, t, pos, c);
    assert Delivered(r);
    assert r.out[|s.out|].ticket == pos;
    ConservedFrame(s, r);
  }

  lemma ReleasesLaps<T>(s: State<T>, r: State<T>, t: nat, pos: nat, c: Cell<T>)
    requires Inv(s) && r.cells != [] && CellStep(s, r, t, pos, c) && pos < s.deq
    requires Seq(s, pos) == pos + 1 && c == Cell(pos + |s.cells|, Data(s, pos))
    ensures Laps(r) && FullHolds(r)
  {
    hide ThreadsOk, Delivered, PcOf, Seq, Data, Shares;
  }

  lemma ReleasesOwned<T>(s: State<T>, r: State<T>, t: nat, pos: nat, c: Cell<T>)
    requires Inv(s) && r.cells != [] && CellStep(s, r, t, pos, c) && pos < s.deq
    requires Seq(s, pos) == pos + 1 && c == Cell(pos + |s.cells|, Data(s, pos))
    requires PcOf(s, t).DeqRead? && PcOf(s, t).pos == pos && PcOf(r, t).Idle?
    ensures Owned(r)
  {
    hide Laps, FullHolds, Delivered, PcOf, Seq, Data, Shares;
    assert ThreadOk(s, PcOf(s, t));
    OwnedFrame(s, r);
  }

  lemma ReleasesThreads<T>(s: State<T>, r: State<T>, t: nat, pos: nat, c: Cell<T>)
    requires Inv(s) && r.cells != [] && CellStep(s, r, t, pos, c) && pos < s.deq
    requires Seq(s, pos) == pos + 1 && c == Cell(pos + |s.cells|, Data(s, pos))
    requires PcOf(s, t).DeqRead? && PcOf(s, t).pos == pos && PcOf(r, t).Idle?
    ensures ThreadsOk(r)
  {
    hide Laps, Owned, FullHolds, Delivered, PcOf, Seq, Data, Shares;
    forall u: nat ensures ThreadOk(r, PcOf(r, u)) {
      assert ThreadOk(s, PcOf(s, u));
    }
  }

  // ---- Whole runs ----------------------------------------------------------------------------------

  lemma LocalStepKeeps<T>(s: State<T>, step: Step<T>)
    requires Inv(s) && Enabled(s, step) && !step.MoveData? && !step.StoreSequence? && !step.CompareAndSwap?
    ensures Inv(Do(s, step))
  {
    hide Laps, Owned, ThreadsOk, FullHolds, Delivered, Conserved, Seq;
    var p := PcOf(s, step.t);
    match step {
      case CallEnqueue(t, x) => LocalKeeps(s, t, EnqStart(x));
      case CallDequeue(t) => LocalKeeps(s, t, DeqStart);
      case LoadPosition(t, seen) => LocalKeeps(s, t, if p.EnqStart? then EnqHave(p.x, seen) else DeqHave(seen));
      case LoadSequence(t, seen) =>
        LocalKeeps(s, t,
          if p.EnqHave? then (if seen == p.pos then EnqSaw(p.x, p.pos) else if seen < p.pos then Idle
              else EnqStart(p.x))
          else (if seen == p.pos + 1 then DeqSaw(p.pos) else if seen < p.pos + 1 then Idle else DeqStart));
    }
  }

  lemma SwapKeeps<T>(s: State<T>, t: nat, seen: nat, spurious: bool)
    requires Inv(s) && Enabled(s, CompareAndSwap(t, seen, spurious))
    ensures Inv(Do(s, CompareAndSwap(t, seen, spurious)))
  {
    hide Laps, Owned, ThreadsOk, FullHolds, Delivered, Conserved, Seq;
    var p := PcOf(s, t);
    if p.EnqSaw? {
      if !spurious && p.pos == s.enq {
        EnqueueWins(s, t, p.x, p.pos);
      } else {
        LocalKeeps(s, t, EnqHave(p.x, seen));
      }
    } else {
      if !spurious && p.pos == s.deq {
        DequeueWins(s, t, p.pos);
      } else {
        LocalKeeps(s, t, DeqHave(seen));
      }
    }
  }

  lemma StoreKeeps<T>(s: State<T>, step: Step<T>)
    requires Inv(s) && Enabled(s, step) && (step.MoveData? || step.StoreSequence?)
    ensures Inv(Do(s, step))
  {
    hide Inv, Seq, Data, Goto, SetCell;
    var p := PcOf(s, step.t);
    if p.EnqOwn? {
      EnqueueStores(s, step.t, p.x, p.pos);
    } else if p.DeqOwn? {
      DequeueReads(s, step.t, p.pos);
    } else if p.EnqStored? {
      EnqueuePublishes(s, step.t, p.x, p.pos);
    } else {
      DequeueReleases(s, step.t, p.x, p.pos);
    }
  }

  lemma StepKeeps<T>(s: State<T>, step: Step<T>)
    requires Inv(s) && Enabled(s, step)
    ensures Inv(Do(s, step))
  {
    hide Inv, Enabled;
    match step
    case CompareAndSwap(t, seen, spurious) => SwapKeeps(s, t, seen, spurious);
    case MoveData(_) => StoreKeeps(s, step);
    case StoreSequence(_) => StoreKeeps(s, step);
    case _ => LocalStepKeeps(s, step);
  }

  lemma InitiallyHolds<T>(capacity: nat)
    requires capacity >= 2
    ensures Inv(Initial<T>(capacity))
  {
    var s := Initial<T>(capacity);
    forall i: nat ensures Seq(s, i) <= i && (i < capacity ==> Seq(s, i) == i) {
      SmallMod(i, capacity);
    }
  }

  lemma SmallMod(i: nat, n: nat)
    requires n > 0
    ensures i % n <= i && (i < n ==> i % n == i)
  {
    if i < n {
      ModUnique(0, i, n);
    }
  }

  lemma {:induction false} ReachableHolds<T>(capacity: nat, steps: seq<Step<T>>)
    requires capacity >= 2 && Run(Initial(capacity), steps).Some?
    ensures Inv(Run(Initial(capacity), steps).value) && |Run(Initial(capacity), steps).value.cells| == capacity
    decreases |steps|
  {
    if steps == [] {
      InitiallyHolds<T>(capacity);
    } else {
      var init := steps[..|steps| - 1];
      ReachableHolds(capacity, init);
      hide Inv;
      StepKeeps(Run(Initial(capacity), init).value, steps[|steps| - 1]);
      SameCapacity(Run(Initial(capacity), init).value, steps[|steps| - 1]);
    }
  }

  lemma SameCapacity<T>(s: State<T>, step: Step<T>)
    requires s.cells != [] && Enabled(s, step)
    ensures |Do(s, step).cells| == |s.cells|
  {
  }

  /** What the queue promises of one state: tickets within the capacity, each delivered once with its own value. */
  ghost predicate Promise<T>(s: State<T>) {
    && |s.taken| == s.enq && s.deq <= s.enq <= s.deq + |s.cells|
    && (forall i | 0 <= i < |s.out| :: s.out[i].ticket < s.deq && s.out[i].value == s.taken[s.out[i].ticket])
    && (forall i, j | 0 <= i < j < |s.out| :: s.out[i].ticket != s.out[j].ticket)
    && ((forall t: nat :: PcOf(s, t).Idle?) ==> forall i: nat | i < s.deq :: InOut(s.out, i))
  }

  lemma InvPromises<T>(s: State<T>)
    requires Inv(s)
    ensures Promise(s)
  {
  }

  /** With two cells or more, every interleaving delivers each value exactly once. */
  lemma ExactlyOnce<T>(capacity: nat, steps: seq<Step<T>>)
    requires capacity >= 2 && Run(Initial(capacity), steps).Some?
    ensures Promise(Run(Initial(capacity), steps).value)
  {
    ReachableHolds(capacity, steps);
    hide Inv;
    InvPromises(Run(Initial(capacity), steps).value);
  }

  /** When no call is in progress the cells hold exactly the values not yet claimed, and the rest are free. */
  lemma QuiescentContents<T>(s: State<T>, i: nat)
    requires Inv(s) && (forall t: nat :: PcOf(s, t).Idle?)
    requires s.deq <= i < s.deq + |s.cells|
    ensures i < s.enq ==> Seq(s, i) == i + 1 && Data(s, i) == Some(s.taken[i])
    ensures i >= s.enq ==> Seq(s, i) == i
  {
    if i >= |s.cells| {
      LapBack(i, |s.cells|);
      assert Seq(s, i - |s.cells|) == Seq(s, i);
    }
    hide Seq, Data, PcOf;
  }

  lemma RunOneMore<T>(s: State<T>, steps: seq<Step<T>>, step: Step<T>)
    requires Run(s, steps).Some? && Run(s, steps).value.cells != [] && Enabled(Run(s, steps).value, step)
    ensures Run(s, steps + [step]) == Some(Do(Run(s, steps).value, step))
  {
    assert (steps + [step])[..|steps|] == steps;
  }

  // ---- One cell is not enough ----------------------------------------------------------------------

  /** In a one-cell ring a full cell looks free to the next ticket: both store pos + 1. */
  lemma SoloEnqueue(before: seq<Step<int>>, s: State<int>, x: int) returns (steps: seq<Step<int>>, r: State<int>)
    requires Run(Initial(1), before) == Some(s)
    requires |s.cells| == 1 && s.cells[0].sequence == s.enq && PcOf(s, 0).Idle?
    ensures Run(Initial(1), steps) == Some(r)
    ensures r.cells == [Cell(s.enq + 1, Some(x))] && r.enq == s.enq + 1 && r.deq == s.deq && PcOf(r, 0).Idle?
    ensures r.taken == s.taken + [x] && r.out == s.out
  {
    hide Run, Initial;
    steps, r := SoloLooks(before, s, x);
    steps, r := OneStep(steps, r, CompareAndSwap(0, 0, false));
    steps, r := OneStep(steps, r, MoveData(0));
    steps, r := OneStep(steps, r, StoreSequence(0));
  }

  lemma SoloLooks(before: seq<Step<int>>, s: State<int>, x: int) returns (steps: seq<Step<int>>, r: State<int>)
    requires Run(Initial(1), before) == Some(s)
    requires |s.cells| == 1 && s.cells[0].sequence == s.enq && PcOf(s, 0).Idle?
    ensures Run(Initial(1), steps) == Some(r)
    ensures r == s.(threads := r.threads) && PcOf(r, 0) == EnqSaw(x, s.enq)
  {
    hide Run, Initial;
    steps, r := OneStep(before, s, CallEnqueue(0, x));
    steps, r := OneStep(steps, r, LoadPosition(0, s.enq));
    steps, r := OneStep(steps, r, LoadSequence(0, s.enq));
  }

  lemma OneStep(before: seq<Step<int>>, s: State<int>, step: Step<int>) returns (steps: seq<Step<int>>, r: State<int>)
    requires Run(Initial(1), before) == Some(s) && s.cells != [] && Enabled(s, step)
    ensures Run(Initial(1), steps) == Some(r) && r == Do(s, step)
  {
    steps, r := before + [step], Do(s, step);
    RunOneMore(Initial(1), before, step);
  }

  /** Two values are accepted by a one-cell queue and the first is gone. */
  lemma SingleCellLoses() returns (steps: seq<Step<int>>, s: State<int>)
    ensures Run(Initial(1), steps) == Some(s)
    ensures s.taken == [1, 2] && s.deq == 0 && s.out == [] && s.cells == [Cell(2, Some(2))]
  {
    var first, s1 := SoloEnqueue([], Initial(1), 1);
    steps, s := SoloEnqueue(first, s1, 2);
  }

  /** The ring keeps its promise on every run exactly when it has at least two cells. */
  lemma PromiseIffTwoCells(capacity: nat)
    requires capacity > 0
    ensures (forall steps: seq<Step<int>> | Run(Initial(capacity), steps).Some? ::
            Promise(Run(Initial(capacity), steps).value))
       <==> capacity >= 2
  {
    if capacity >= 2 {
      forall steps: seq<Step<int>> | Run(Initial(capacity),
          steps).Some? ensures Promise(Run(Initial(capacity), steps).value) {
        ExactlyOnce(capacity, steps);
      }
    } else {
      var steps, s := SingleCellLoses();
      assert !Promise(s);
    }
  }

  // ---- The object while one call runs alone: its first attempt decides ----------------------------

  /** pos & mask_. */
  function Index(pos: nat, n: nat): (i: nat)
    requires n > 0
    ensures i < n
  {
    pos % n
  }

  /** Positions less than a lap apart use different cells. */
  lemma Window(q: nat, n: nat)
    requires n > 0
    ensures forall p: nat | p != q && p < q + n && q < p + n :: Index(p, n) != Index(q, n)
    ensures Index(q + n, n) == Index(q, n)
  {
    LapBack(q + n, n);
    forall p: nat | p != q && p < q + n && q < p + n ensures Index(p, n) != Index(q, n) {
      if Index(p, n) == Index(q, n) {
        SameCell(p, q, n);
      }
    }
  }

  class LockFreeQueue<T> {
    const cells: array<Cell<T>>
    var enqueuePos: nat
    var dequeuePos: nat
    ghost var contents: seq<T>

    ghost predicate Valid()
      reads this, cells
    {
      var n := cells.Length;
      && n >= 2 && |contents| <= n && enqueuePos == dequeuePos + |contents|
      && (forall p: nat | dequeuePos <= p < enqueuePos ::
          cells[Index(p, n)] == Cell(p + 1, Some(contents[p - dequeuePos])))
      && (forall p: nat | enqueuePos <= p < dequeuePos + n :: cells[Index(p, n)].sequence == p)
    }

    constructor (capacity: nat)
      requires capacity >= 2
      ensures Valid() && contents == [] && cells.Length == capacity && fresh(cells)
    {
      cells := new Cell<T>[capacity](i requires i >= 0 => Cell(i, None));
      enqueuePos, dequeuePos, contents := 0, 0, [];
      new;
      forall p: nat | p < capacity ensures Index(p, capacity) == p {
        SmallMod(p, capacity);
      }
    }

    /** Appends, unless the ring is full. */
    method Enqueue(x: T) returns (ok: bool)
      requires Valid()
      modifies this, cells
      ensures Valid()
      ensures ok <==> |old(contents)| < cells.Length
      ensures contents == if ok then old(contents) + [x] else old(contents)
    {
      var pos, n := enqueuePos, cells.Length;
      Window(pos, n);
      Window(dequeuePos, n);
      hide Index;
      assert cells[Index(pos, n)].sequence == pos <==> |contents| < n;
      if cells[Index(pos, n)].sequence != pos {
        return false;
      }
      enqueuePos := pos + 1;
      cells[Index(pos, n)] := Cell(pos + 1, Some(x));
      contents := contents + [x];
      return true;
    }

    /** Removes the oldest, unless the ring is empty. */
    method Dequeue() returns (r: Option<T>)
      requires Valid()
      modifies this, cells
      ensures Valid()
      ensures r.None? <==> old(contents) == []
      ensures contents == if r.Some? then old(contents)[1..] else old(contents)
      ensures r.Some? ==> r.value == old(contents)[0]
    {
      var pos, n := dequeuePos, cells.Length;
      Window(pos, n);
      hide Index;
      assert cells[Index(pos, n)].sequence == pos + 1 <==> contents != [];
      if cells[Index(pos, n)].sequence != pos + 1 {
        return None;
      }
      r := cells[Index(pos, n)].data;
      dequeuePos := pos + 1;
      cells[Index(pos, n)] := Cell(pos + n, cells[Index(pos, n)].data);
      contents := contents[1..];
    }
  }
}
