/**
 Group commit (src/engine/lsm/wal.cpp): appenders and committers of one log segment, step by step.

 Counts stand for records.  `written` records have gone into the stream, `flushed` of them have reached the
 operating system, `durable` of them the device; the stream may spill and the system may write back at any
 moment.  A committer's load of appended_ may be stale, but not older than what it knew when it called
 commit(): `known`.  `acked` is the largest `known` of a commit that has returned.
 */
module GroupCommit {
  import opened Bytes

  datatype Pc =
    | Idle
    | AppendWaits
    | AppendHolds
    | AppendWrote
    | AppendCounted
    | CommitCalled(known: nat)
    | CommitWaits(known: nat, needed: nat)
    | CommitChecks(known: nat, needed: nat)
    | CommitWantsFile(known: nat, needed: nat)
    | CommitHasFile(known: nat, needed: nat)
    | CommitFlushed(known: nat, needed: nat)
    | CommitCounted(known: nat, needed: nat, target: nat)
    | CommitMustSync(known: nat, needed: nat, target: nat)
    | CommitSynced(known: nat, needed: nat, target: nat)
    | CommitReturns(known: nat, needed: nat)

  datatype State = State(
    written: nat, appended: nat, flushed: nat, durable: nat, synced: nat,
    mutex: Option<nat>, syncMutex: Option<nat>, threads: map<nat, Pc>, acked: nat)

  datatype Step =
    | CallAppend(t: nat)
    | LockFile(t: nat)
    | WriteRecord(t: nat)
    | Count(t: nat)
    | UnlockAppend(t: nat)
    | CallCommit(t: nat, known: nat)
    | LoadNeeded(t: nat, seen: nat)
    | LockSync(t: nat)
    | CheckSynced(t: nat)
    | Flush(t: nat)
    | ReadTarget(t: nat)
    | UnlockFile(t: nat)
    | Fdatasync(t: nat)
    | StoreSynced(t: nat)
    | Return(t: nat)
    | Spill(n: nat)
    | WriteBack(n: nat)

  function PcOf(s: State, t: nat): (p: Pc) {
    if t in s.threads then s.threads[t] else Idle
  }

  predicate Enabled(s: State, step: Step) {
    match step
    case CallAppend(t) => PcOf(s, t).Idle?
    case LockFile(t) => (PcOf(s, t).AppendWaits? || PcOf(s, t).CommitWantsFile?) && s.mutex.None?
    case WriteRecord(t) => PcOf(s, t).AppendHolds?
    case Count(t) => PcOf(s, t).AppendWrote?
    case UnlockAppend(t) => PcOf(s, t).AppendCounted?
    case CallCommit(t, known) => PcOf(s, t).Idle? && known <= s.appended
    case LoadNeeded(t, seen) => PcOf(s, t).CommitCalled? && PcOf(s, t).known <= seen <= s.appended
    case LockSync(t) => PcOf(s, t).CommitWaits? && s.syncMutex.None?
    case CheckSynced(t) => PcOf(s, t).CommitChecks?
    case Flush(t) => PcOf(s, t).CommitHasFile?
    case ReadTarget(t) => PcOf(s, t).CommitFlushed?
    case UnlockFile(t) => PcOf(s, t).CommitCounted?
    case Fdatasync(t) => PcOf(s, t).CommitMustSync?
    case StoreSynced(t) => PcOf(s, t).CommitSynced?
    case Return(t) => PcOf(s, t).CommitReturns?
    case Spill(n) => s.flushed <= n <= s.written
    case WriteBack(n) => s.durable <= n <= s.flushed
  }

  function Goto(s: State, t: nat, p: Pc): (r: State) {
    s.(threads := s.threads[t := p])
  }

  function Do(s: State, step: Step): (r: State)
    requires Enabled(s, step)
  {
    match step
    case CallAppend(t) => Goto(s, t, AppendWaits)
    case LockFile(t) =>
      var p := PcOf(s, t);
      Goto(s.(mutex := Some(t)), t, if p.AppendWaits? then AppendHolds else CommitHasFile(p.known, p.needed))
    case WriteRecord(t) => Goto(s.(written := s.written + 1), t, AppendWrote)
    case Count(t) => Goto(s.(appended := s.appended + 1), t, AppendCounted)
    case UnlockAppend(t) => Goto(s.(mutex := None), t, Idle)
    case CallCommit(t, known) => Goto(s, t, CommitCalled(known))
    case LoadNeeded(t, seen) => Goto(s, t, CommitWaits(PcOf(s, t).known, seen))
    case LockSync(t) => Goto(s.(syncMutex := Some(t)), t, CommitChecks(PcOf(s, t).known, PcOf(s, t).needed))
    case CheckSynced(t) =>
      var p := PcOf(s, t);
      Goto(s, t, if s.synced >= p.needed then CommitReturns(p.known, p.needed) else CommitWantsFile(p.known, p.needed))
    case Flush(t) => Goto(s.(flushed := s.written), t, CommitFlushed(PcOf(s, t).known, PcOf(s, t).needed))
    case ReadTarget(t) => Goto(s, t, CommitCounted(PcOf(s, t).known, PcOf(s, t).needed, s.appended))
    case UnlockFile(t) =>
      var p := PcOf(s, t);
      Goto(s.(mutex := None), t, CommitMustSync(p.known, p.needed, p.target))
    case Fdatasync(t) =>
      var p := PcOf(s, t);
      Goto(s.(durable := s.flushed), t, CommitSynced(p.known, p.needed, p.target))
    case StoreSynced(t) =>
      var p := PcOf(s, t);
      Goto(s.(synced := if p.target > s.synced then p.target else s.synced), t, CommitReturns(p.known, p.needed))
    case Return(t) =>
      var p := PcOf(s, t);
      Goto(s.(syncMutex := None, acked := if p.known > s.acked then p.known else s.acked), t, Idle)
    case Spill(n) => s.(flushed := n)
    case WriteBack(n) => s.(durable := n)
  }

  const INITIAL: State := State(0, 0, 0, 0, 0, None, None, map[], 0)

  function Run(s: State, steps: seq<Step>): (r: Option<State>) {
    if steps == [] then Some(s)
    else
      var p := Run(s, steps[..|steps| - 1]);
      if p.Some? && Enabled(p.value, steps[|steps| - 1]) then Some(Do(p.value, steps[|steps| - 1])) else None
  }

  // ---- The invariant -------------------------------------------------------------------------------

  predicate HasMutex(p: Pc) {
    p.AppendHolds? || p.AppendWrote? || p.AppendCounted? || p.CommitHasFile? || p.CommitFlushed? || p.CommitCounted?
  }

  predicate HasSyncMutex(p: Pc) {
    || p.CommitChecks? || p.CommitWantsFile? || p.CommitHasFile? || p.CommitFlushed? || p.CommitCounted?
    || p.CommitMustSync? || p.CommitSynced? || p.CommitReturns?
  }

  predicate Chain(s: State) {
    s.synced <= s.durable <= s.flushed <= s.written && s.acked <= s.durable && s.appended <= s.written <= s.appended + 1
  }

  /** The counter lags the stream exactly while an appender stands between its write and its count. */
  predicate Lag(s: State) {
    s.written == s.appended + 1 <==> (s.mutex.Some? && PcOf(s, s.mutex.value).AppendWrote?)
  }

  ghost predicate Locks(s: State) {
    && (forall t: nat | HasMutex(PcOf(s, t)) :: s.mutex == Some(t))
    && (forall t: nat | HasSyncMutex(PcOf(s, t)) :: s.syncMutex == Some(t))
    && (s.mutex.Some? ==> HasMutex(PcOf(s, s.mutex.value)))
    && (s.syncMutex.Some? ==> HasSyncMutex(PcOf(s, s.syncMutex.value)))
  }

  predicate ThreadOk(s: State, p: Pc) {
    match p
    case CommitCalled(known) => known <= s.appended
    case CommitWaits(known, needed) => known <= needed <= s.appended
    case CommitChecks(known, needed) => known <= needed <= s.appended
    case CommitWantsFile(known, needed) => known <= needed <= s.appended
    case CommitHasFile(known, needed) => known <= needed <= s.appended
    case CommitFlushed(known, needed) => known <= needed <= s.appended <= s.flushed
    case CommitCounted(known, needed, target) => known <= needed <= target <= s.flushed
    case CommitMustSync(known, needed, target) => known <= needed <= target <= s.flushed
    case CommitSynced(known, needed, target) => known <= needed <= target <= s.durable
    case CommitReturns(known, needed) => known <= needed <= s.synced
    case _ => true
  }

  ghost predicate Inv(s: State) {
    Chain(s) && Lag(s) && Locks(s) && forall t: nat :: ThreadOk(s, PcOf(s, t))
  }

  lemma PcAfter(s: State, t: nat, p: Pc)
    ensures forall u: nat :: PcOf(Goto(s, t, p), u) == if u == t then p else PcOf(s, u)
  {
  }

  /** Only the holder of mutex_ moves the counters, so what the others rely on stays. */
  lemma OthersOk(s: State, r: State, t: nat)
    requires Inv(s) && ThreadOk(r, PcOf(r, t)) && forall u: nat | u != t :: PcOf(r, u) == PcOf(s, u)
    requires s.appended <= r.appended && s.flushed <= r.flushed && s.durable <= r.durable && s.synced <= r.synced
    requires r.appended > s.appended ==> s.mutex == Some(t)
    ensures forall u: nat :: ThreadOk(r, PcOf(r, u))
  {
    hide PcOf;
    forall u: nat ensures ThreadOk(r, PcOf(r, u)) {
      assert ThreadOk(s, PcOf(s, u));
    }
  }

  lemma AppendStepKeeps(s: State, step: Step)
    requires Inv(s) && Enabled(s, step)
    requires step.CallAppend? || step.WriteRecord? || step.Count? || step.UnlockAppend?
    ensures Inv(Do(s, step))
  {
    var t, r := step.t, Do(s, step);
    assert ThreadOk(s, PcOf(s, t));
    PcAfter(s, t, PcOf(r, t));
    assert forall u: nat :: PcOf(r, u) == if u == t then PcOf(r, t) else PcOf(s, u);
    hide PcOf, Goto;
    assert Chain(r) && Lag(r) && Locks(r);
    OthersOk(s, r, t);
  }

  lemma LockStepKeeps(s: State, step: Step)
    requires Inv(s) && Enabled(s, step)
    requires step.LockFile? || step.LockSync? || step.CallCommit? || step.LoadNeeded? || step.CheckSynced?
    ensures Inv(Do(s, step))
  {
    var t, r := step.t, Do(s, step);
    assert ThreadOk(s, PcOf(s, t));
    PcAfter(s, t, PcOf(r, t));
    assert forall u: nat :: PcOf(r, u) == if u == t then PcOf(r, t) else PcOf(s, u);
    hide PcOf, Goto;
    assert Chain(r) && Lag(r) && Locks(r);
    OthersOk(s, r, t);
  }

  lemma FlushStepKeeps(s: State, step: Step)
    requires Inv(s) && Enabled(s, step)
    requires step.Flush? || step.ReadTarget? || step.UnlockFile?
    ensures Inv(Do(s, step))
  {
    var t, r := step.t, Do(s, step);
    assert ThreadOk(s, PcOf(s, t));
    PcAfter(s, t, PcOf(r, t));
    assert forall u: nat :: PcOf(r, u) == if u == t then PcOf(r, t) else PcOf(s, u);
    hide PcOf, Goto;
    assert Chain(r) && Lag(r) && Locks(r);
    OthersOk(s, r, t);
  }

  lemma SyncStepKeeps(s: State, step: Step)
    requires Inv(s) && Enabled(s, step)
    requires step.Fdatasync? || step.StoreSynced? || step.Return?
    ensures Inv(Do(s, step))
  {
    var t, r := step.t, Do(s, step);
    assert ThreadOk(s, PcOf(s, t));
    PcAfter(s, t, PcOf(r, t));
    assert forall u: nat :: PcOf(r, u) == if u == t then PcOf(r, t) else PcOf(s, u);
    hide PcOf, Goto;
    assert Chain(r) && Lag(r) && Locks(r);
    OthersOk(s, r, t);
  }

  lemma StepKeeps(s: State, step: Step)
    requires Inv(s) && Enabled(s, step)
    ensures Inv(Do(s, step))
  {
    if step.Spill? || step.WriteBack? {
      var r := Do(s, step);
      assert forall u: nat :: PcOf(r, u) == PcOf(s, u);
      hide PcOf;
      forall u: nat ensures ThreadOk(r, PcOf(r, u)) {
        assert ThreadOk(s, PcOf(s, u));
      }
    } else {
      hide Inv, Enabled, Do;
      if step.CallAppend? || step.WriteRecord? || step.Count? || step.UnlockAppend? {
        AppendStepKeeps(s, step);
      } else if step.LockFile? || step.LockSync? || step.CallCommit? || step.LoadNeeded? || step.CheckSynced? {
        LockStepKeeps(s, step);
      } else if step.Flush? || step.ReadTarget? || step.UnlockFile? {
        FlushStepKeeps(s, step);
      } else {
        SyncStepKeeps(s, step);
      }
    }
  }

  lemma {:induction false} ReachableHolds(steps: seq<Step>)
    requires Run(INITIAL, steps).Some?
    ensures Inv(Run(INITIAL, steps).value)
    decreases |steps|
  {
    if steps != [] {
      ReachableHolds(steps[..|steps| - 1]);
      hide Inv;
      StepKeeps(Run(INITIAL, steps[..|steps| - 1]).value, steps[|steps| - 1]);
    }
  }

  // ---- What a commit promises ----------------------------------------------------------------------

  /** Whenever commit returns, every record its caller knew of is on the device, whoever synced it. */
  lemma ReturnIsDurable(steps: seq<Step>, t: nat)
    requires Run(INITIAL, steps + [Return(t)]).Some?
    ensures var before, after := Run(INITIAL, steps), Run(INITIAL, steps + [Return(t)]).value;
            before.Some? && PcOf(before.value, t).CommitReturns? && PcOf(before.value, t).known <= after.durable
  {
    assert (steps + [Return(t)])[..|steps|] == steps;
    ReachableHolds(steps);
    var s := Run(INITIAL, steps).value;
    assert ThreadOk(s, PcOf(s, t));
  }

  /** In every reachable state the counters form a chain, and nothing acknowledged is volatile. */
  lemma CountersChain(steps: seq<Step>)
    requires Run(INITIAL, steps).Some?
    ensures var s := Run(INITIAL, steps).value;
            && s.synced <= s.durable <= s.flushed <= s.written && s.appended <= s.written <= s.appended + 1
            && s.acked <= s.durable
  {
    ReachableHolds(steps);
  }
}
