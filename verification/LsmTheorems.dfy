/** What the engine guarantees over whole runs, whatever the interleaving and however often it crashes. */
module LsmTheorems {
  import opened Bytes
  import opened Layers
  import opened Memtables
  import opened OneKey
  import opened Manifests
  import opened LsmStates
  import opened LsmInvariants
  import opened LsmSteps
  import opened LsmThreads
  import opened LsmCompaction
  import opened LsmRecovery

  // ---- The catalogue -------------------------------------------------------------------------------

  predicate OfCompaction(step: Step) {
    || step.CompactSnapshot? || step.CompactWrite? || step.CompactWriteFails? || step.CompactPublish?
    || step.CompactPublishFails? || step.CompactUnlink? || step.SaveManifest?
  }

  lemma CompactionStepShapes(s: State, step: Step)
    requires Shaped(s) && Enabled(s, step) && OfCompaction(step)
    ensures Shaped(Do(s, step))
  {
    hide Shaped;
    match step
    case CompactSnapshot => CompactSnapshotShapes(s);
    case CompactWrite(size) => CompactWriteShapes(s, size);
    case CompactWriteFails => CompactIdleShapes(s);
    case CompactPublish => CompactPublishShapes(s);
    case CompactPublishFails(resaved) => CompactPublishFailsShapes(s, resaved);
    case CompactUnlink => CompactUnlinkShapes(s);
    case SaveManifest => SaveManifestShapes(s);
  }

  lemma OtherStepShapes(s: State, step: Step)
    requires IsRunning(s) && Shaped(s) && Enabled(s, step) && !step.Crash? && !OfCompaction(step)
    ensures Shaped(Do(s, step))
  {
    hide Shaped;
    match step
    case LockedWrite(w) => WriteShapes(s, w);
    case WalReachesDevice(n) => SyncShapes(s, n);
    case CommitCall(i) => CommitCallShapes(s, i);
    case CommitReturn(i) => CommitReturnShapes(s, i);
    case FlushPick => FlushPickShapes(s);
    case FlushNumber => FlushNumberShapes(s);
    case FlushWrite(size) => FlushWriteShapes(s, size);
    case FlushWriteFails => FlushIdleShapes(s);
    case FlushPublish => FlushPublishShapes(s);
    case FlushPublishFails => FlushPublishFailsShapes(s);
    case FlushUnlink => FlushUnlinkShapes(s);
  }

  lemma EngineStepForms(s: State, step: Step)
    requires IsRunning(s) && Shaped(s) && Enabled(s, step) && !step.Crash?
    ensures Formed(Do(s, step))
  {
    hide Shaped, Enabled, Do;
    StillRunning(s, step);
    if OfCompaction(step) {
      CompactionStepShapes(s, step);
    } else {
      OtherStepShapes(s, step);
    }
  }

  lemma IdleStepForms(s: State, step: Step)
    requires Formed(s) && (s.phase.Down? || s.phase.Loading?) && Enabled(s, step) && !step.Crash?
    ensures Formed(Do(s, step))
  {
    hide Formed;
    match step
    case Load => LoadForms(s);
    case RemoveOrphan(p) => RemoveOrphanForms(s, p);
    case ReplayLogs(order) => ReplayForms(s, order);
  }

  lemma StepForms(s: State, step: Step)
    requires Formed(s) && Enabled(s, step)
    ensures Formed(Do(s, step))
  {
    hide Shaped, Catalogued, Enabled, Do, Sound, AllPresent;
    if step.Crash? {
      CrashIsDoCrash(s, step.cuts);
      CrashForms(s, step.cuts);
    } else {
      match s.phase
      case Running(_) => EngineStepForms(s, step);
      case Checkpointing(_, _, _, _, _) => CheckpointForms(s, step);
      case Deleting(_, _, _, _) => DeletingForms(s, step);
      case Down => IdleStepForms(s, step);
      case Loading(_, _) => IdleStepForms(s, step);
    }
  }

  lemma StillRunning(s: State, step: Step)
    requires IsRunning(s) && Enabled(s, step) && !step.Crash?
    ensures IsRunning(Do(s, step))
  {
  }

  // ---- Steps that move threads only ----------------------------------------------------------------

  predicate OfThreads(step: Step) {
    || OfCompaction(step) || step.FlushPick? || step.FlushNumber? || step.FlushWrite? || step.FlushWriteFails?
    || step.FlushPublishFails?
  }

  /** Logs, memtables and what lies under them are as they were. */
  ghost predicate OnlyThreadsMoved(s: State, s': State) {
    SameData(s, s') && s'.phase.e.writers == s.phase.e.writers && s'.acked == s.acked
  }

  lemma CompactionKeepsData(s: State, step: Step)
    requires IsRunning(s) && Shaped(s) && Enabled(s, step) && OfCompaction(step)
    ensures OnlyThreadsMoved(s, Do(s, step))
  {
    hide Shaped, Base, Order, Splice, Undo, AddFile, RemoveAll, SelectRun;
    if step.CompactPublish? {
      PublishedBase(s);
    }
  }

  /** Compaction, and flush until it publishes, touch neither logs nor memtables nor what lies under them. */
  lemma ThreadsKeepData(s: State, step: Step)
    requires IsRunning(s) && Shaped(s) && Enabled(s, step) && OfThreads(step)
    ensures OnlyThreadsMoved(s, Do(s, step))
  {
    hide Shaped, Base, AddFile, RemoveFile;
    if OfCompaction(step) {
      hide Enabled, Do;
      CompactionKeepsData(s, step);
    }
  }

  // ---- Bookkeeping ---------------------------------------------------------------------------------

  lemma EngineStepBooks(s: State, step: Step)
    requires IsRunning(s) && Shaped(s) && Booked(s) && Enabled(s, step) && !step.Crash? && !OfThreads(step)
    ensures Booked(Do(s, step))
  {
    hide Shaped, Booked, DoWrite;
    match step
    case LockedWrite(w) => WriteBooks(s, w);
    case WalReachesDevice(n) => SyncBooks(s, n);
    case CommitCall(i) => CommitCallBooks(s, i);
    case CommitReturn(i) => CommitReturnBooks(s, i);
    case FlushPublish => FlushPublishBooks(s);
    case FlushUnlink => FlushUnlinkBooks(s);
  }

  lemma RecoveryStepBooks(s: State, step: Step)
    requires !IsRunning(s) && Booked(s) && Enabled(s, step) && !step.Crash?
    ensures Booked(Do(s, step))
  {
    match step
    case WalReachesDevice(n) => CheckpointSyncBooks(s, n);
    case Load =>
    case RemoveOrphan(p) =>
    case ReplayLogs(order) => ReplayBooks(s, order);
    case CheckpointAppend => CheckpointAppendBooks(s);
    case CheckpointDone => CheckpointDoneBooks(s);
    case DeleteSegment(g) => DeleteSegmentBooks(s, g);
    case Start => StartBooks(s);
  }

  lemma StepBooks(s: State, step: Step)
    requires Formed(s) && Booked(s) && Enabled(s, step)
    ensures Booked(Do(s, step))
  {
    hide Formed, Booked, Enabled, Do, Shaped;
    if step.Crash? {
      CrashIsDoCrash(s, step.cuts);
      CrashBooks(s, step.cuts);
    } else if IsRunning(s) {
      ShapedWhenRunning(s);
      if OfThreads(step) {
        ThreadsKeepData(s, step);
        SameDataBooks(s, Do(s, step));
      } else {
        EngineStepBooks(s, step);
      }
    } else {
      RecoveryStepBooks(s, step);
    }
  }

  // ---- What is held at a key -----------------------------------------------------------------------

  lemma EngineStepHolds(s: State, step: Step, k: Key)
    requires IsRunning(s) && Shaped(s) && Booked(s) && HeldAt(s, k) && Enabled(s, step) && HasRoomFor(k, s, step)
    requires !step.Crash? && !OfThreads(step)
    ensures HeldAt(Do(s, step), k)
  {
    hide Shaped, Booked, HeldAt, DoWrite, Takes;
    match step
    case LockedWrite(w) => WriteHolds(s, w, k);
    case WalReachesDevice(n) => SyncHolds(s, n, k);
    case CommitCall(i) => SameDataHolds(s, DoCommitCall(s, i), k);
    case CommitReturn(i) => SameDataHolds(s, DoCommitReturn(s, i), k);
    case FlushPublish => FlushPublishHolds(s, k);
    case FlushUnlink => FlushUnlinkHolds(s, k);
  }

  lemma CheckpointStepHolds(s: State, step: Step, k: Key)
    requires s.phase.Checkpointing? && Booked(s) && HeldAt(s, k) && Enabled(s, step) && !step.Crash?
    ensures HeldAt(Do(s, step), k)
  {
    hide Booked, HeldAt;
    match step
    case WalReachesDevice(n) =>
      assert DoReachDevice(s, n).disk.wals - {s.phase.gen} == s.disk.wals - {s.phase.gen};
      CheckpointWritesHold(s, DoReachDevice(s, n), k);
    case CheckpointAppend =>
      assert DoCheckpointAppend(s).disk.wals - {s.phase.gen} == s.disk.wals - {s.phase.gen};
      CheckpointWritesHold(s, DoCheckpointAppend(s), k);
    case CheckpointDone => CheckpointDoneHolds(s, k);
  }

  lemma DeletingStepHolds(s: State, step: Step, k: Key)
    requires s.phase.Deleting? && Booked(s) && HeldAt(s, k) && Enabled(s, step) && !step.Crash?
    ensures HeldAt(Do(s, step), k)
  {
    hide Booked, HeldAt;
    match step
    case DeleteSegment(g) => DeleteSegmentHolds(s, g, k);
    case Start => StartHolds(s, k);
  }

  lemma IdleStepHolds(s: State, step: Step, k: Key)
    requires (s.phase.Down? || s.phase.Loading?) && Formed(s) && HeldAt(s, k) && Enabled(s, step)
    requires HasRoomFor(k, s, step) && !step.Crash?
    ensures HeldAt(Do(s, step), k)
  {
    hide Formed, Order, Replay, Refill, Base, Spec, AllPresent, Enumerates;
    match step
    case Load =>
    case RemoveOrphan(p) => RemoveOrphanHolds(s, p, k);
    case ReplayLogs(order) => ReplayHoldsIff(s, order, k);
  }

  lemma StepHolds(s: State, step: Step, k: Key)
    requires Formed(s) && Booked(s) && HeldAt(s, k) && Enabled(s, step) && HasRoomFor(k, s, step)
    ensures HeldAt(Do(s, step), k)
  {
    hide Formed, Booked, HeldAt, Enabled, Do, Shaped, HasRoomFor;
    if step.Crash? {
      CrashHolds(s, step.cuts, k);
    } else {
      match s.phase
      case Running(_) =>
        ShapedWhenRunning(s);
        if OfThreads(step) {
          ThreadsKeepData(s, step);
          SameDataHolds(s, Do(s, step), k);
        } else {
          EngineStepHolds(s, step, k);
        }
      case Checkpointing(_, _, _, _, _) => CheckpointStepHolds(s, step, k);
      case Deleting(_, _, _, _) => DeletingStepHolds(s, step, k);
      case Down => IdleStepHolds(s, step, k);
      case Loading(_, _) => IdleStepHolds(s, step, k);
    }
  }

  /** A step keeps what is held at a key exactly when the memtable takes what the step puts into it there. */
  lemma StepHoldsIff(s: State, step: Step, k: Key)
    requires Formed(s) && Booked(s) && HeldAt(s, k) && Enabled(s, step)
    ensures HeldAt(Do(s, step), k) <==> HasRoomFor(k, s, step)
  {
    hide Formed, Booked, HeldAt, Replay, Refill, Takes, DoWrite;
    if HasRoomFor(k, s, step) {
      StepHolds(s, step, k);
    } else if step.LockedWrite? {
      IgnoredBreaks(s, step.w);
    } else {
      ReplayHoldsIff(s, step.order, k);
    }
  }

  // ---- All keys together ---------------------------------------------------------------------------

  /** Room is room for every key. */
  lemma RoomForAll(s: State, step: Step)
    ensures HasRoom(s, step) <==> forall k :: HasRoomFor(k, s, step)
  {
    hide Takes, Replay, Refill, Holdable;
    match step
    case LockedWrite(w) =>
      assert HasRoomFor(w.key, s, step) <==> HasRoom(s, step);
    case ReplayLogs(_) =>
      RefillIff(s.disk.wals);
      RefillIsPart(s.disk.wals);
      if forall k :: HasRoomFor(k, s, step) {
        forall k | k in Replay(s.disk.wals) ensures k in Refill(s.disk.wals) {
          assert HasRoomFor(k, s, step);
        }
        assert Refill(s.disk.wals) == Replay(s.disk.wals);
      }
    case _ =>
  }

  /** A step keeps the invariant exactly when the memtable takes what the step puts into it. */
  lemma StepKeepsIff(s: State, step: Step)
    requires Inv(s) && Enabled(s, step)
    ensures Inv(Do(s, step)) <==> HasRoom(s, step)
  {
    hide Formed, Booked, HeldAt, Enabled, Do, HasRoom, HasRoomFor;
    StepForms(s, step);
    StepBooks(s, step);
    RoomForAll(s, step);
    forall k ensures HeldAt(Do(s, step), k) <==> HasRoomFor(k, s, step) {
      StepHoldsIff(s, step, k);
    }
  }

  lemma LiveStep(s: State, step: Step)
    requires Live(s) && Enabled(s, step) && HasRoom(s, step) && !step.Crash?
    ensures Live(Do(s, step))
  {
    hide Inv, Enabled, Do, HasRoom;
    StepKeepsIff(s, step);
    StillRunning(s, step);
  }

  lemma WriteKeeps(s: State, w: Write)
    requires Live(s) && Takes(s.phase.e.memtable, w.key)
    ensures HasActiveWal(s) && Live(DoWrite(s, w))
  {
    hide Live, Takes, DoWrite;
    ActiveWhenLive(s);
    LiveStep(s, LockedWrite(w));
  }

  lemma FlushPublishKeeps(s: State)
    requires Live(s) && s.phase.e.flush.FlushWritten? && s.phase.e.frozen != []
    ensures Live(DoFlushPublish(s))
  {
    hide Live, DoFlushPublish;
    RunsWhenLive(s);
    LiveStep(s, FlushPublish);
  }

  lemma CompactPublishKeeps(s: State)
    requires Live(s) && s.phase.e.compact.CompactWritten?
    ensures Live(DoCompactPublish(s))
  {
    hide Live, DoCompactPublish;
    RunsWhenLive(s);
    LiveStep(s, CompactPublish);
  }

  // ---- Runs ----------------------------------------------------------------------------------------

  lemma InitiallyHolds()
    ensures Inv(INITIAL)
  {
    var m := INITIAL.disk.manifest;
    NoFiles(m, seq(LEVELS, i => i));
    assert Order(m) == [];
    assert Base([]) == map[];
  }

  lemma {:induction false} NoFiles(m: Manifest, levels: seq<nat>)
    requires m.levels == map[]
    ensures FilesOf(m, levels) == []
  {
    if levels != [] {
      NoFiles(m, levels[1..]);
    }
  }

  /**
   In every run, even one that loses records, the catalogue stays sound and names files that exist, and positions in
   history and log fit together.
   */
  lemma {:induction false} ReachableSound(steps: seq<Step>)
    requires Run(INITIAL, steps).Some?
    ensures Formed(Run(INITIAL, steps).value) && Booked(Run(INITIAL, steps).value)
    decreases |steps|
  {
    hide Formed, Booked, Enabled, Do, HeldAt;
    if steps == [] {
      InitiallyHolds();
    } else {
      ReachableSound(steps[..|steps|-1]);
      StepForms(Run(INITIAL, steps[..|steps|-1]).value, steps[|steps|-1]);
      StepBooks(Run(INITIAL, steps[..|steps|-1]).value, steps[|steps|-1]);
    }
  }

  /** What is held at a key is what the history says there, as long as the memtables take the records of that key. */
  lemma {:induction false} ReachableHeld(steps: seq<Step>, k: Key)
    requires Run(INITIAL, steps).Some? && AllAlong(INITIAL, steps, RoomFor(k))
    ensures HeldAt(Run(INITIAL, steps).value, k)
    decreases |steps|
  {
    hide Formed, Booked, HeldAt, Enabled, Do, HasRoomFor;
    if steps == [] {
      InitiallyHolds();
    } else {
      ReachableHeld(steps[..|steps|-1], k);
      ReachableSound(steps[..|steps|-1]);
      StepHolds(Run(INITIAL, steps[..|steps|-1]).value, steps[|steps|-1], k);
    }
  }

  lemma {:induction false} RoomForEach(s: State, steps: seq<Step>, k: Key)
    requires AllAlong(s, steps, HasRoom)
    ensures AllAlong(s, steps, RoomFor(k))
    decreases |steps|
  {
    hide Run, HasRoom, HasRoomFor;
    if steps != [] {
      RoomForEach(s, steps[..|steps| - 1], k);
      var p := Run(s, steps[..|steps| - 1]);
      if p.Some? {
        RoomForAll(p.value, steps[|steps| - 1]);
      }
    }
  }

  /** Every state that a run reaches satisfies the invariant, as long as the memtables take what they are given. */
  lemma ReachableHolds(steps: seq<Step>)
    requires Run(INITIAL, steps).Some? && AllAlong(INITIAL, steps, HasRoom)
    ensures Inv(Run(INITIAL, steps).value)
  {
    hide Run, AllAlong, Formed, Booked, HeldAt;
    ReachableSound(steps);
    forall k ensures HeldAt(Run(INITIAL, steps).value, k) {
      RoomForEach(INITIAL, steps, k);
      ReachableHeld(steps, k);
    }
  }

  // ---- Refinement of one plain map -----------------------------------------------------------------

  lemma HeldRefines(s: State, k: Key)
    requires IsRunning(s) && Booked(s) && HeldAt(s, k)
    ensures GetLocked(s.phase.e, k) == Find(Contents(s), k)
  {
    hide Segmented, Acknowledged, Holdable, GetLocked, Base, LogLayer, FrozenLayer, FrozenAt, Spec, Seen, Find, On;
    CurrentContents(s, s.phase.e, k);
    GetSees(s.phase.e, k);
  }

  lemma LiveRefines(s: State, k: Key)
    requires Live(s)
    ensures GetLocked(s.phase.e, k) == Find(Contents(s), k)
  {
    hide Formed, Booked, HeldAt, GetLocked, Contents, Find;
    HeldRefines(s, k);
  }

  /** In every reachable interleaving, the newest-to-oldest lookup answers as the map of last writes. */
  lemma Refinement(steps: seq<Step>, k: Key)
    requires Run(INITIAL, steps).Some? && IsRunning(Run(INITIAL, steps).value)
    requires AllAlong(INITIAL, steps, RoomFor(k))
    ensures var s := Run(INITIAL, steps).value;
            GetLocked(s.phase.e, k) == Find(Spec(map[], s.hist), k) && LastWins(GetLocked(s.phase.e, k), s.hist, k)
  {
    hide Run, AllAlong, Booked, HeldAt, GetLocked, Find, Spec, LastWins;
    ReachableSound(steps);
    ReachableHeld(steps, k);
    HeldRefines(Run(INITIAL, steps).value, k);
    SpecLastWins(Run(INITIAL, steps).value.hist, k);
  }

  /** Only a locked write or a crash touches the abstract map; every other step is a stutter. */
  lemma OnlyWritesChange(s: State, step: Step)
    requires Enabled(s, step)
    ensures match step
            case LockedWrite(w) => Do(s, step).hist == s.hist + [w]
            case Crash(_) => Do(s, step).hist <= s.hist
            case _ => Do(s, step).hist == s.hist
  {
  }

  /** What a client sees of a step through get(), whatever was lost before. */
  lemma StepIsSeen(s: State, step: Step, k: Key)
    requires IsRunning(s) && Shaped(s) && Enabled(s, step) && !step.Crash?
    ensures IsRunning(Do(s, step))
    ensures GetLocked(Do(s, step).phase.e, k)
         == if step.LockedWrite? && k == step.w.key && Takes(s.phase.e.memtable, k)
            then Seen(None, Some(EntryOf(step.w)))
            else GetLocked(s.phase.e, k)
  {
    hide Shaped, Enabled, Do, GetLocked, Takes, Seen, EntryOf;
    StillRunning(s, step);
    if OfThreads(step) {
      ThreadsKeepData(s, step);
      SameDataIsUnseen(s, Do(s, step), k);
    } else {
      OtherStepIsSeen(s, step, k);
    }
  }

  lemma OtherStepIsSeen(s: State, step: Step, k: Key)
    requires IsRunning(s) && Shaped(s) && Enabled(s, step) && !step.Crash? && !OfThreads(step)
    ensures IsRunning(Do(s, step))
    ensures GetLocked(Do(s, step).phase.e, k)
         == if step.LockedWrite? && k == step.w.key && Takes(s.phase.e.memtable, k)
            then Seen(None, Some(EntryOf(step.w)))
            else GetLocked(s.phase.e, k)
  {
    hide Shaped, GetLocked, Takes, Seen, EntryOf, DoWrite;
    StillRunning(s, step);
    match step
    case LockedWrite(w) => WriteIsSeen(s, w, k);
    case FlushPublish => FlushPublishIsUnseen(s, k);
    case WalReachesDevice(n) => SameLayers(s.phase.e, DoReachDevice(s, n).phase.e, k);
    case CommitCall(i) => SameLayers(s.phase.e, DoCommitCall(s, i).phase.e, k);
    case CommitReturn(i) => SameLayers(s.phase.e, DoCommitReturn(s, i).phase.e, k);
    case FlushUnlink => SameLayers(s.phase.e, DoFlushUnlink(s).phase.e, k);
  }

  lemma SameLayers(e: Engine, e': Engine, k: Key)
    requires e'.memtable == e.memtable && e'.frozen == e.frozen && e'.ssts == e.ssts
    ensures GetLocked(e', k) == GetLocked(e, k)
  {
  }

  /**
   In every reachable interleaving, whatever was lost before: get before and after a step differs only by the write
   that the step makes, and not at all by a write that finds no room.
   */
  lemma StepIsVisibleOnlyAsItsWrite(steps: seq<Step>, step: Step, k: Key)
    requires Run(INITIAL, steps).Some? && IsRunning(Run(INITIAL, steps).value)
    requires Enabled(Run(INITIAL, steps).value, step) && !step.Crash?
    ensures var s := Run(INITIAL, steps).value;
            && IsRunning(Do(s, step))
            && var before, after := GetLocked(s.phase.e, k), GetLocked(Do(s, step).phase.e, k);
            match step
            case LockedWrite(w) =>
              after == if k != w.key || !Takes(s.phase.e.memtable, w.key) then before
                       else (match w case Put(_, item) => Some(item) case Del(_) => None)
            case _ => after == before
  {
    hide Run, Formed, Booked, Shaped, Enabled, Do, GetLocked, Takes;
    ReachableSound(steps);
    var s := Run(INITIAL, steps).value;
    ShapedWhenRunning(s);
    StepIsSeen(s, step, k);
  }

  // ---- Crash safety --------------------------------------------------------------------------------

  /** After any run a crash can happen at any cut; it leaves a prefix of the history with every acknowledged write. */
  lemma CrashLosesOnlyUnacknowledged(steps: seq<Step>, cuts: map<nat, nat>)
    requires Run(INITIAL, steps).Some? && Surviving(Run(INITIAL, steps).value.disk.wals, cuts)
    ensures var s := Run(INITIAL, steps).value;
            && Enabled(s, Crash(cuts))
            && Do(s, Crash(cuts)).hist <= s.hist
            && s.acked <= |Do(s, Crash(cuts)).hist|
  {
    hide Run, Formed, Booked, Enabled, Do;
    ReachableSound(steps);
    var s := Run(INITIAL, steps).value;
    CrashBooks(s, cuts);
    CrashIsDoCrash(s, cuts);
  }

  lemma LastStep(steps: seq<Step>, step: Step)
    requires Run(INITIAL, steps + [step]).Some?
    ensures Run(INITIAL, steps).Some? && Enabled(Run(INITIAL, steps).value, step)
    ensures Run(INITIAL, steps + [step]).value == Do(Run(INITIAL, steps).value, step)
  {
    hide Enabled, Do;
    assert (steps + [step])[..|steps|] == steps;
  }

  predicate NoWrites(steps: seq<Step>) {
    forall i | 0 <= i < |steps| :: !steps[i].LockedWrite?
  }

  lemma {:induction false} HistoryShrinks(steps: seq<Step>, more: seq<Step>)
    requires Run(INITIAL, steps + more).Some? && NoWrites(more)
    ensures Run(INITIAL, steps).Some?
    ensures Run(INITIAL, steps + more).value.hist <= Run(INITIAL, steps).value.hist
    ensures Run(INITIAL, steps).value.acked <= Run(INITIAL, steps + more).value.acked
    decreases |more|
  {
    hide Run, Enabled, Do;
    if more == [] {
      assert steps + more == steps;
    } else {
      var init, step := more[..|more|-1], more[|more|-1];
      assert steps + more == (steps + init) + [step];
      LastStep(steps + init, step);
      HistoryShrinks(steps, init);
      OnlyWritesChange(Run(INITIAL, steps + init).value, step);
      AckedGrows(Run(INITIAL, steps + init).value, step);
    }
  }

  lemma AckedGrows(s: State, step: Step)
    requires Enabled(s, step)
    ensures s.acked <= Do(s, step).acked
  {
  }

  /**
   Steps that write nothing leave, through any number of further crashes, a prefix of the history, and never less
   than what had been acknowledged.
   */
  lemma QuietRun(steps: seq<Step>, more: seq<Step>)
    requires Run(INITIAL, steps + more).Some? && NoWrites(more)
    ensures Run(INITIAL, steps).Some?
    ensures Run(INITIAL, steps + more).value.hist <= Run(INITIAL, steps).value.hist
    ensures Run(INITIAL, steps).value.acked <= |Run(INITIAL, steps + more).value.hist|
  {
    hide Run, Formed, Booked;
    HistoryShrinks(steps, more);
    ReachableSound(steps + more);
    AckedWhenBooked(Run(INITIAL, steps + more).value);
  }

  /**
   Crash safety: take any run, crash it, and let it recover through any number of further crashes --
   during recovery, in the middle of the checkpoint, between two deletions -- until it serves again.  Its history
   is then some prefix of the writes made before the crash, and that prefix contains every write whose commit had
   returned.  At a key whose records the memtables took, it serves what that history says, whatever became of other
   keys.
   */
  lemma CrashSafety(steps: seq<Step>, cuts: map<nat, nat>, recovery: seq<Step>, k: Key)
    requires Run(INITIAL, steps + [Crash(cuts)] + recovery).Some? && NoWrites(recovery)
    requires IsRunning(Run(INITIAL, steps + [Crash(cuts)] + recovery).value)
    ensures Run(INITIAL, steps).Some?
    ensures var s, t := Run(INITIAL, steps).value, Run(INITIAL, steps + [Crash(cuts)] + recovery).value;
            && t.hist <= s.hist && s.acked <= |t.hist|
            && (AllAlong(INITIAL, steps + [Crash(cuts)] + recovery, RoomFor(k)) ==>
                  && GetLocked(t.phase.e, k) == Find(Spec(map[], t.hist), k)
                  && LastWins(GetLocked(t.phase.e, k), t.hist, k))
  {
    hide Run, AllAlong, GetLocked, Find, Spec, LastWins;
    var all, more := steps + [Crash(cuts)] + recovery, [Crash(cuts)] + recovery;
    assert all == steps + more;
    QuietRun(steps, more);
    if AllAlong(INITIAL, all, RoomFor(k)) {
      Refinement(all, k);
    }
  }

  // ---- Precedence and restart ----------------------------------------------------------------------

  /**
   Sequence numbers descend strictly along the list of files and stay below the next one, although a
   compaction reuses the highest number of its inputs; so sorting either manifest rebuilds the live order.
   */
  lemma PrecedenceSurvivesRestart(steps: seq<Step>)
    requires Run(INITIAL, steps).Some? && IsRunning(Run(INITIAL, steps).value)
    ensures var s := Run(INITIAL, steps).value;
            var e, live, saved := s.phase.e, Order(s.phase.e.manifest), Order(s.disk.manifest);
            && saved == live && |live| == |e.ssts|
            && (forall i | 0 <= i < |live| ::
                live[i].path == e.ssts[i].path && live[i].seqno < s.disk.manifest.next <= e.manifest.next)
            && (forall i, j | 0 <= i < j < |live| :: live[i].seqno > live[j].seqno)
            && AllPresent(saved, s.disk.files) && Opened(saved, s.disk.files) == e.ssts
  {
    hide Run, FlushOk, CompactOk, Order, Booked;
    ReachableSound(steps);
  }

  /** Recovery never finds the manifest naming a file that is gone. */
  lemma RestartFindsItsFiles(steps: seq<Step>)
    requires Run(INITIAL, steps).Some? && Run(INITIAL, steps).value.phase.Down?
    ensures Enabled(Run(INITIAL, steps).value, Load)
  {
    hide Run, Formed, Booked, Enabled;
    ReachableSound(steps);
    LoadForms(Run(INITIAL, steps).value);
  }
}
