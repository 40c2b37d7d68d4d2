/** From wherever a crash leaves the directory, and from every point of a recovery, the engine can serve again. */
module LsmProgress {
  import opened Bytes
  import opened Layers
  import opened Memtables
  import opened Manifests
  import opened LsmStates
  import opened LsmInvariants
  import opened LsmTheorems

  /** Neither a client's write nor another crash. */
  predicate Quiet(steps: seq<Step>) {
    forall i | 0 <= i < |steps| :: !steps[i].LockedWrite? && !steps[i].Crash?
  }

  lemma {:induction false} RunFirst(s: State, step: Step, more: seq<Step>)
    requires Enabled(s, step)
    ensures Run(s, [step] + more) == Run(Do(s, step), more)
    decreases |more|
  {
    hide Enabled, Do;
    var steps := [step] + more;
    if more == [] {
      assert steps == [step] && steps[..0] == [];
    } else {
      RunFirst(s, step, more[..|more| - 1]);
      assert steps[..|steps| - 1] == [step] + more[..|more| - 1] && steps[|steps| - 1] == more[|more| - 1];
    }
  }

  lemma {:induction false} RunOn(s: State, first: seq<Step>, more: seq<Step>)
    requires Run(s, first).Some?
    ensures Run(s, first + more) == Run(Run(s, first).value, more)
    decreases |more|
  {
    hide Enabled, Do;
    if more == [] {
      assert first + more == first;
    } else {
      RunOn(s, first, more[..|more| - 1]);
      assert (first + more)[..|first + more| - 1] == first + more[..|more| - 1];
    }
  }

  // ---- The recovered memtable can be listed --------------------------------------------------------

  /** Every entry is one that a log record leaves. */
  ghost predicate Recorded(l: Layer) {
    forall k | k in l :: l[k].deleted ==> l[k].item == map[]
  }

  lemma {:induction false} LogIsRecorded(ws: seq<Write>)
    ensures Recorded(LogLayer(ws))
  {
    if ws != [] {
      LogIsRecorded(ws[..|ws| - 1]);
    }
  }

  lemma {:induction false} ReplayIsRecorded(wals: map<nat, Wal>)
    ensures Recorded(Replay(wals))
    decreases |wals|
  {
    hide LogLayer;
    if wals != map[] {
      var g := MaxOf(wals.Keys);
      SmallerMap(wals, g);
      ReplayIsRecorded(wals - {g});
      LogIsRecorded(wals[g].records);
    }
  }

  lemma RefillIsRecorded(wals: map<nat, Wal>)
    ensures Recorded(Refill(wals))
  {
    hide Refill, Replay;
    ReplayIsRecorded(wals);
    RefillIsPart(wals);
  }

  lemma {:induction false} CanBeListed(l: Layer) returns (order: seq<Write>)
    requires Recorded(l)
    ensures Enumerates(order, l)
    decreases |l|
  {
    if l == map[] {
      order := [];
    } else {
      var k :| k in l;
      assert (l - {k}).Keys == l.Keys - {k};
      var rest := CanBeListed(l - {k});
      var w := if l[k].deleted then Del(k) else Put(k, l[k].item);
      order := rest + [w];
      assert order[|rest|].key == k;
      forall x | x in l ensures exists i :: 0 <= i < |order| && order[i].key == x {
        if x != k {
          assert x in l - {k};
          var i :| 0 <= i < |rest| && rest[i].key == x;
          assert order[i].key == x;
        }
      }
    }
  }

  // ---- Stage by stage ------------------------------------------------------------------------------

  /** Neither a client's write, nor a crash, nor the start of a recovery. */
  predicate Plain(steps: seq<Step>) {
    forall i | 0 <= i < |steps| ::
      !steps[i].LockedWrite? && !steps[i].Crash? && !steps[i].ReplayLogs? && !steps[i].Load?
  }

  /** An engine that has just started over these files, with this memtable. */
  ghost predicate Starts(t: State, ssts: seq<Sst>, memtable: Layer) {
    && t.phase.Running? && t.phase.e.memtable == memtable && t.phase.e.frozen == [] && t.phase.e.ssts == ssts
    && t.phase.e.writers == map[]
  }

  lemma {:induction false} FinishDeleting(s: State) returns (more: seq<Step>)
    requires s.phase.Deleting? && s.phase.gen in s.disk.wals
    ensures Plain(more) && Run(s, more).Some? && Starts(Run(s, more).value, s.phase.ssts, s.phase.memtable)
    decreases |s.disk.wals|
  {
    hide Run;
    if s.disk.wals.Keys == {s.phase.gen} {
      StartsAt(s);
      RunFirst(s, Start, []);
      more := [Start] + [];
      NoMore(Do(s, Start));
    } else {
      var step := DeleteSegment(OtherSegment(s.disk.wals, s.phase.gen));
      SmallerMap(s.disk.wals, step.g);
      var rest := FinishDeleting(Do(s, step));
      RunFirst(s, step, rest);
      more := [step] + rest;
    }
  }

  ghost function OtherSegment(wals: map<nat, Wal>, gen: nat): (g: nat)
    requires gen in wals && wals.Keys != {gen}
    ensures g in wals && g != gen
  {
    assert wals.Keys == (wals.Keys - {gen}) + {gen};
    var g :| g in wals.Keys - {gen};
    g
  }

  lemma StartsAt(s: State)
    requires s.phase.Deleting? && s.disk.wals.Keys == {s.phase.gen}
    ensures Enabled(s, Start) && Starts(Do(s, Start), s.phase.ssts, s.phase.memtable)
  {
    assert s.phase.gen in s.disk.wals.Keys;
  }

  lemma NoMore(s: State)
    ensures Run(s, []) == Some(s)
  {
  }

  /** The checkpoint's segment is there, and what is on the device is in it. */
  predicate Writing(s: State) {
    && s.phase.Checkpointing? && s.phase.gen in s.disk.wals
    && s.disk.wals[s.phase.gen].durable <= |s.disk.wals[s.phase.gen].records|
  }

  /** Records of the checkpoint that are not on the device yet. */
  function Unsynced(s: State): (n: nat)
    requires Writing(s)
  {
    |s.disk.wals[s.phase.gen].records| - s.disk.wals[s.phase.gen].durable
  }

  /** Sync if something is unsynced, else append if something is left, else go on to the old segments. */
  lemma NextCheckpointStep(s: State) returns (step: Step)
    requires Writing(s)
    ensures Plain([step]) && Enabled(s, step)
    ensures var t := Do(s, step);
            && (t.phase.Deleting? || t.phase.Checkpointing?) && t.phase.gen in t.disk.wals
            && t.phase.memtable == s.phase.memtable && t.phase.ssts == s.phase.ssts
            && (t.phase.Checkpointing? ==>
                  && Writing(t)
                  && (|t.phase.todo| < |s.phase.todo|
                      || (|t.phase.todo| == |s.phase.todo| && Unsynced(t) < Unsynced(s))))
    ensures Inv(s) ==> Inv(Do(s, step))
  {
    hide Inv;
    var w := s.disk.wals[s.phase.gen];
    if w.durable < |w.records| {
      step := WalReachesDevice(|w.records|);
    } else if s.phase.todo != [] {
      step := CheckpointAppend;
    } else {
      step := CheckpointDone;
    }
    if Inv(s) {
      StepKeepsIff(s, step);
    }
  }

  lemma {:induction false} FinishCheckpoint(s: State) returns (more: seq<Step>)
    requires Writing(s)
    ensures Plain(more) && Run(s, more).Some? && Starts(Run(s, more).value, s.phase.ssts, s.phase.memtable)
    decreases |s.phase.todo|, Unsynced(s)
  {
    hide Run, Enabled, Do, Unsynced, Inv;
    var step := NextCheckpointStep(s);
    assert step == [step][0];
    var rest;
    if Do(s, step).phase.Deleting? {
      rest := FinishDeleting(Do(s, step));
    } else {
      rest := FinishCheckpoint(Do(s, step));
    }
    RunFirst(s, step, rest);
    more := [step] + rest;
  }

  lemma FinishLoading(s: State) returns (order: seq<Write>, more: seq<Step>)
    requires s.phase.Loading?
    ensures Plain(more) && Run(s, [ReplayLogs(order)] + more).Some?
    ensures Starts(Run(s, [ReplayLogs(order)] + more).value, s.phase.ssts, Refill(s.disk.wals))
  {
    hide Run, Refill, Starts;
    RefillIsRecorded(s.disk.wals);
    order := CanBeListed(Refill(s.disk.wals));
    var step := ReplayLogs(order);
    more := FinishCheckpoint(Do(s, step));
    RunFirst(s, step, more);
  }

  // ---- Room along a continuation -------------------------------------------------------------------

  lemma {:induction false} AlongFirst(s: State, step: Step, more: seq<Step>, ok: (State, Step) -> bool)
    requires Enabled(s, step)
    ensures AllAlong(s, [step] + more, ok) <==> ok(s, step) && AllAlong(Do(s, step), more, ok)
    decreases |more|
  {
    hide Enabled, Do;
    var steps := [step] + more;
    if more == [] {
      assert steps == [step] && steps[..0] == [];
    } else {
      var init := more[..|more| - 1];
      AlongFirst(s, step, init, ok);
      RunFirst(s, step, init);
      assert steps[..|steps| - 1] == [step] + init && steps[|steps| - 1] == more[|more| - 1];
    }
  }

  lemma {:induction false} PlainAllAlong(s: State, more: seq<Step>, ok: (State, Step) -> bool)
    requires Plain(more)
    requires forall t: State, step: Step | Plain([step]) :: ok(t, step)
    ensures AllAlong(s, more, ok)
    decreases |more|
  {
    hide Run;
    if more != [] {
      PlainAllAlong(s, more[..|more| - 1], ok);
      assert Plain([more[|more| - 1]]);
    }
  }

  lemma PlainHasRoom(s: State, more: seq<Step>)
    requires Plain(more)
    ensures AllAlong(s, more, HasRoom)
  {
    forall t: State, step: Step | Plain([step]) ensures HasRoom(t, step) {
      assert step == [step][0];
    }
    PlainAllAlong(s, more, HasRoom);
  }

  // ---- All of it -----------------------------------------------------------------------------------

  /** The log is still to be replayed. */
  predicate Replays(s: State) {
    s.phase.Down? || s.phase.Loading?
  }

  lemma LoadingFinishes(s: State) returns (more: seq<Step>)
    requires s.phase.Loading?
    ensures Quiet(more) && NoLoad(more) && Run(s, more).Some?
    ensures Starts(Run(s, more).value, s.phase.ssts, Refill(s.disk.wals))
    ensures AllAlong(s, more, HasRoom) <==> Holdable(Replay(s.disk.wals))
  {
    hide Run, Starts, AllAlong, Refill, Replay, Holdable;
    var order, rest := FinishLoading(s);
    more := [ReplayLogs(order)] + rest;
    FirstEnabled(s, ReplayLogs(order), rest);
    AlongFirst(s, ReplayLogs(order), rest, HasRoom);
    PlainHasRoom(Do(s, ReplayLogs(order)), rest);
  }

  lemma {:induction false} FirstEnabled(s: State, step: Step, more: seq<Step>)
    requires Run(s, [step] + more).Some?
    ensures Enabled(s, step)
    decreases |more|
  {
    hide Enabled, Do;
    var steps := [step] + more;
    if more == [] {
      assert steps == [step] && steps[..0] == [];
    } else {
      assert steps[..|steps| - 1] == [step] + more[..|more| - 1];
      FirstEnabled(s, step, more[..|more| - 1]);
    }
  }

  predicate NoLoad(steps: seq<Step>) {
    forall i | 0 <= i < |steps| :: !steps[i].Load?
  }

  /**
   From the directory of any crash and from any stage of a recovery, even one that loses records, the engine can
   serve again.  It starts with what one memtable took of the log.
   */
  lemma RecoveryFinishes(s: State) returns (more: seq<Step>)
    requires Formed(s) && Booked(s)
    ensures Quiet(more) && Run(s, more).Some? && IsRunning(Run(s, more).value)
    ensures NoLoad(if s.phase.Down? && more != [] then more[1..] else more) && (s.phase.Down? ==> [Load] <= more)
    ensures AllAlong(s, more, HasRoom) <==> (Replays(s) ==> Holdable(Replay(s.disk.wals)))
    ensures Replays(s) ==>
              && AllPresent(Order(s.disk.manifest), s.disk.files)
              && Starts(Run(s, more).value, Opened(Order(s.disk.manifest), s.disk.files), Refill(s.disk.wals))
  {
    hide Run, AllAlong, HasRoom, Replay, Refill, Holdable, Order, Sound, Shaped;
    match s.phase
    case Running(_) =>
      more := [];
      NoMore(s);
      PlainHasRoom(s, more);
    case Deleting(_, _, _, _) =>
      more := FinishDeleting(s);
      PlainHasRoom(s, more);
    case Checkpointing(_, _, _, _, _) =>
      more := FinishCheckpoint(s);
      PlainHasRoom(s, more);
    case Loading(_, _) =>
      more := LoadingFinishes(s);
    case Down =>
      more := DownFinishes(s);
  }

  lemma DownFinishes(s: State) returns (more: seq<Step>)
    requires Formed(s) && s.phase.Down?
    ensures Quiet(more) && Run(s, more).Some? && [Load] <= more && NoLoad(more[1..])
    ensures AllAlong(s, more, HasRoom) <==> Holdable(Replay(s.disk.wals))
    ensures AllPresent(Order(s.disk.manifest), s.disk.files)
    ensures Starts(Run(s, more).value, Opened(Order(s.disk.manifest), s.disk.files), Refill(s.disk.wals))
  {
    hide Run, AllAlong, Replay, Refill, Holdable, Order, Sound, Starts;
    var rest := LoadingFinishes(Do(s, Load));
    more := [Load] + rest;
    assert more[1..] == rest;
    RunFirst(s, Load, rest);
    AlongFirst(s, Load, rest, HasRoom);
  }

  lemma {:induction false} QuietKeepsHistory(s: State, more: seq<Step>)
    requires Run(s, more).Some? && Quiet(more)
    ensures Run(s, more).value.hist == s.hist
    decreases |more|
  {
    hide Enabled, Do;
    if more != [] {
      var init := more[..|more| - 1];
      QuietKeepsHistory(s, init);
      OnlyWritesChange(Run(s, init).value, more[|more| - 1]);
    }
  }

  lemma {:induction false} RunStaysSound(s: State, steps: seq<Step>)
    requires Formed(s) && Booked(s) && Run(s, steps).Some?
    ensures Formed(Run(s, steps).value) && Booked(Run(s, steps).value)
    decreases |steps|
  {
    hide Formed, Booked, Enabled, Do;
    if steps != [] {
      RunStaysSound(s, steps[..|steps| - 1]);
      StepForms(Run(s, steps[..|steps| - 1]).value, steps[|steps| - 1]);
      StepBooks(Run(s, steps[..|steps| - 1]).value, steps[|steps| - 1]);
    }
  }

  lemma {:induction false} RunHolds(s: State, steps: seq<Step>, k: Key)
    requires Formed(s) && Booked(s) && HeldAt(s, k) && Run(s, steps).Some? && AllAlong(s, steps, RoomFor(k))
    ensures HeldAt(Run(s, steps).value, k)
    decreases |steps|
  {
    hide Formed, Booked, HeldAt, Enabled, Do, HasRoomFor;
    if steps != [] {
      RunHolds(s, steps[..|steps| - 1], k);
      RunStaysSound(s, steps[..|steps| - 1]);
      StepHolds(Run(s, steps[..|steps| - 1]).value, steps[|steps| - 1], k);
    }
  }
}
