/** When an engine comes back, and with what: the limits that a restart meets. */
module LsmRestarts {
  import opened Bytes
  import opened Layers
  import opened Memtables
  import opened Manifests
  import opened LsmStates
  import opened LsmInvariants
  import opened LsmTheorems
  import opened LsmProgress
  import opened LsmOpening

  // ---- The manifest that a restart reads -----------------------------------------------------------

  /** The bytes that save wrote for the manifest on disk. */
  ghost function SavedBytes(s: State, n: ManifestFiles.Names): (bytes: ByteString)
    requires ManifestFiles.Representable(s.disk.manifest)
  {
    ManifestFiles.ManifestBytes(ManifestFiles.CatalogueOf(s.disk.manifest, n))
  }

  /** Where a restart reads the manifest, load accepts its bytes. */
  ghost predicate Accepts(n: ManifestFiles.Names, s: State, step: Step) {
    step.Load? ==>
      && ManifestFiles.Representable(s.disk.manifest)
      && ManifestFiles.LoadBytes(SavedBytes(s, n)) == Some(ManifestFiles.CatalogueOf(s.disk.manifest, n))
  }

  ghost function Accepting(n: ManifestFiles.Names): (ok: (State, Step) -> bool) {
    (s: State, step: Step) => Accepts(n, s, step)
  }

  lemma AcceptsIff(s: State, n: ManifestFiles.Names)
    requires Formed(s) && ManifestFiles.Short(n) && ManifestFiles.Representable(s.disk.manifest)
    ensures Accepts(n, s, Load) <==> |SavedBytes(s, n)| <= ManifestFiles.MAX_FILE
  {
    hide Formed, ManifestFiles.Short, ManifestFiles.Representable, ManifestFiles.CatalogueOf, WellLevelled;
    hide ManifestFiles.ManifestBytes, ManifestFiles.LoadBytes, ManifestFiles.Retagged, ManifestFiles.Savable;
    SavedIsLevelled(s);
    ManifestFiles.CatalogueIsSavable(s.disk.manifest, n);
    ManifestFiles.RoundTripIff(ManifestFiles.CatalogueOf(s.disk.manifest, n));
  }

  lemma {:induction false} NoLoadAccepts(s: State, more: seq<Step>, n: ManifestFiles.Names)
    requires NoLoad(more)
    ensures AllAlong(s, more, Accepting(n))
    decreases |more|
  {
    hide Run;
    if more != [] {
      NoLoadAccepts(s, more[..|more| - 1], n);
    }
  }

  /** A manifest that load refuses keeps the engine down, however often the restart is tried. */
  lemma {:induction false} StaysDown(s: State, more: seq<Step>, n: ManifestFiles.Names)
    requires s.phase.Down? && !Accepts(n, s, Load)
    requires Run(s, more).Some? && AllAlong(s, more, Accepting(n))
    ensures Run(s, more).value.phase.Down? && Run(s, more).value.disk.manifest == s.disk.manifest
    decreases |more|
  {
    hide Enabled, Do, Accepts;
    if more != [] {
      var init, step := more[..|more| - 1], more[|more| - 1];
      StaysDown(s, init, n);
      var t := Run(s, init).value;
      SameManifest(n, s, t);
      DownSteps(t, step);
    }
  }

  lemma SameManifest(n: ManifestFiles.Names, s: State, t: State)
    requires t.disk.manifest == s.disk.manifest
    ensures Accepts(n, t, Load) == Accepts(n, s, Load)
  {
  }

  lemma DownSteps(s: State, step: Step)
    requires s.phase.Down? && Enabled(s, step)
    ensures step == Load || (step.Crash? && Do(s, step).phase.Down? && Do(s, step).disk.manifest == s.disk.manifest)
  {
  }

  // ---- Coming back ---------------------------------------------------------------------------------

  lemma LoadsOnce(s: State, more: seq<Step>, n: ManifestFiles.Names)
    requires Run(s, more).Some? && (s.phase.Down? ==> [Load] <= more)
    requires NoLoad(if s.phase.Down? && more != [] then more[1..] else more)
    ensures AllAlong(s, more, Accepting(n)) <==> (s.phase.Down? ==> Accepts(n, s, Load))
  {
    hide Run, AllAlong, Accepts, Enabled, Do;
    if s.phase.Down? {
      var rest := more[1..];
      assert more == [Load] + rest;
      FirstEnabled(s, Load, rest);
      AlongFirst(s, Load, rest, Accepting(n));
      NoLoadAccepts(Do(s, Load), rest, n);
    } else {
      NoLoadAccepts(s, more, n);
    }
  }

  lemma NoLogToForget(s: State, k: Key)
    requires !Replays(s)
    ensures !Forgotten(s, k)
  {
  }

  /** What a continuation with room for the key serves there. */
  lemma ServesAfter(s: State, more: seq<Step>, k: Key)
    requires Formed(s) && Booked(s) && HeldAt(s, k) && AllAlong(s, more, RoomFor(k))
    requires Run(s, more).Some? && Quiet(more) && IsRunning(Run(s, more).value)
    ensures GetLocked(Run(s, more).value.phase.e, k) == Find(Contents(s), k)
  {
    hide Run, Formed, Booked, HeldAt, GetLocked, Find, Spec, AllAlong;
    RunStaysSound(s, more);
    RunHolds(s, more, k);
    QuietKeepsHistory(s, more);
    HeldRefines(Run(s, more).value, k);
  }

  /**
   After any run whatever, crashed in the middle of a recovery or not, some continuation without writes or crashes
   serves again.  The code can take it exactly when the manifest that a restart would read is within load's limit.
   At a key for which the run had room, it serves what the history says unless it forgets the key now.
   */
  lemma EngineComesBack(steps: seq<Step>, n: ManifestFiles.Names) returns (more: seq<Step>)
    requires Run(INITIAL, steps).Some? && ManifestFiles.Short(n)
    requires ManifestFiles.Representable(Run(INITIAL, steps).value.disk.manifest)
    ensures var s := Run(INITIAL, steps).value;
            && Quiet(more) && Run(s, more).Some? && IsRunning(Run(s, more).value)
            && Run(INITIAL, steps + more) == Run(s, more)
            && (AllAlong(s, more, Accepting(n))
                <==> (s.phase.Down? ==> |SavedBytes(s, n)| <= ManifestFiles.MAX_FILE))
            && forall k | AllAlong(INITIAL, steps, RoomFor(k)) ::
                 GetLocked(Run(s, more).value.phase.e, k) == Find(Spec(map[], s.hist), k) <==> !Forgotten(s, k)
  {
    hide Run, Formed, Booked, HeldAt, GetLocked, Find, Spec, AllAlong, HasRoom, Forgotten, Starts, Order, AllPresent;
    hide Refill;
    hide Replay, Accepts, SavedBytes, ManifestFiles.Short, ManifestFiles.Representable, Quiet, NoLoad, Holdable;
    ReachableSound(steps);
    var s := Run(INITIAL, steps).value;
    more := RecoveryFinishes(s);
    RunOn(INITIAL, steps, more);
    LoadsOnce(s, more, n);
    AcceptsIff(s, n);
    forall k | AllAlong(INITIAL, steps, RoomFor(k))
      ensures GetLocked(Run(s, more).value.phase.e, k) == Find(Spec(map[], s.hist), k) <==> !Forgotten(s, k)
    {
      ReachableHeld(steps, k);
      if Replays(s) {
        ServesUnlessForgotten(s, Run(s, more).value, k);
      } else {
        NoLogToForget(s, k);
        RoomForEach(s, more, k);
        ServesAfter(s, more, k);
      }
    }
  }

  // ---- When there is room --------------------------------------------------------------------------

  /** Valid keys, and logs that leave a memtable with room for one more. */
  ghost predicate Ample(s: State, step: Step) {
    match step
    case LockedWrite(w) => ValidKey(w.key)
    case ReplayLogs(_) => |Replay(s.disk.wals)| < MAX_ENTRIES
    case _ => true
  }

  /** Valid keys everywhere, and memtables that are not full. */
  ghost predicate Roomy(s: State) {
    && (forall g | g in s.disk.wals :: ValidKeys(s.disk.wals[g].records))
    && (s.phase.Running? ==> |s.phase.e.memtable| < MAX_ENTRIES)
    && (s.phase.Checkpointing? ==> |s.phase.memtable| < MAX_ENTRIES && ValidKeys(s.phase.todo))
    && (s.phase.Deleting? ==> |s.phase.memtable| < MAX_ENTRIES)
  }

  lemma ReplayValid(wals: map<nat, Wal>)
    requires forall g | g in wals :: ValidKeys(wals[g].records)
    ensures forall k | k in Replay(wals) :: ValidKey(k)
  {
    hide Replay, LogLayer, ValidKey;
    forall k | k in Replay(wals) ensures ValidKey(k) {
      if !ValidKey(k) {
        forall g | g in wals ensures k !in LogLayer(wals[g].records) {
          LogLayerKeys(wals[g].records);
        }
        ReplayLacks(wals, k);
        assert false;
      }
    }
  }

  lemma RefillFewer(wals: map<nat, Wal>, order: seq<Write>)
    requires |Replay(wals)| < MAX_ENTRIES && Enumerates(order, Refill(wals))
    ensures |Refill(wals)| < MAX_ENTRIES && ValidKeys(order)
  {
    hide Replay, Refill;
    RefillIsPart(wals);
    FewerKeys(Refill(wals).Keys, Replay(wals).Keys);
    RefillHoldable(wals);
  }

  lemma AmpleWrite(s: State, w: Write)
    requires Roomy(s) && IsRunning(s) && HasActiveWal(s) && ValidKey(w.key)
    ensures Roomy(DoWrite(s, w))
  {
    hide Inserted, ValidKey;
    var records := s.disk.wals[s.phase.e.gen].records;
    assert ValidKeys(records + [w]);
  }

  lemma AmpleCrash(s: State, cuts: map<nat, nat>)
    requires Roomy(s) && Enabled(s, Crash(cuts))
    ensures Roomy(DoCrash(s, cuts))
  {
    hide ValidKey;
  }

  lemma AmpleKeeps(s: State, step: Step)
    requires Roomy(s) && Enabled(s, step) && Ample(s, step)
    ensures HasRoom(s, step) && Roomy(Do(s, step))
  {
    hide Replay, Refill, Enumerates, ValidKey, DoWrite, DoCrash;
    match step
    case LockedWrite(w) => AmpleWrite(s, w);
    case Crash(cuts) => AmpleCrash(s, cuts);
    case ReplayLogs(order) =>
      ReplayValid(s.disk.wals);
      RefillFewer(s.disk.wals, order);
    case _ =>
  }

  /**
   The logs that are replayed decide: if each leaves room for one more key, and keys are valid, then every step of
   the run has room, because a live memtable is frozen long before it is full.
   */
  lemma {:induction false} ReplaysDecide(steps: seq<Step>)
    requires Run(INITIAL, steps).Some? && AllAlong(INITIAL, steps, Ample)
    ensures AllAlong(INITIAL, steps, HasRoom) && Roomy(Run(INITIAL, steps).value)
    decreases |steps|
  {
    hide Enabled, Do, Ample, HasRoom, Roomy;
    if steps == [] {
      InitiallyRoomy();
    } else {
      ReplaysDecide(steps[..|steps| - 1]);
      AmpleKeeps(Run(INITIAL, steps[..|steps| - 1]).value, steps[|steps| - 1]);
    }
  }

  lemma InitiallyRoomy()
    ensures Roomy(INITIAL)
  {
  }
}
