/**
 A run that loses acknowledged writes: more distinct keys than one memtable holds, all of them committed and none
 flushed yet, then a crash and a recovery.
 */
module LsmLosses {
  import opened Bytes
  import opened Layers
  import opened Memtables
  import opened OneKey
  import opened Manifests
  import opened LsmStates
  import opened LsmInvariants
  import opened LsmTheorems
  import opened LsmProgress
  import opened LsmOpening
  import Decimals


  function PutAt(i: nat): (w: Write) {
    Put(Decimals.DigitsOf(i), map[])
  }

  function Puts(n: nat): (ws: seq<Write>) {
    seq(n, (i: nat) => PutAt(i))
  }

  /** n puts, all committed, and no file yet. */
  ghost predicate Busy(s: State, n: nat) {
    && IsRunning(s) && s.hist == Puts(n) && s.acked == n && s.phase.e.writers == map[]
    && s.phase.e.ssts == [] && |s.phase.e.memtable| < THRESHOLD
  }

  lemma ShortKey(i: nat)
    requires i <= MAX_ENTRIES
    ensures ValidKey(Decimals.DigitsOf(i))
  {
    assert Decimals.Pow10(7) == 10000000;
    Decimals.DigitsWithin(i, 7);
  }

  lemma PutsMore(n: nat)
    ensures Puts(n + 1) == Puts(n) + [PutAt(n)]
  {
  }

  lemma KeyOfPut(n: nat)
    ensures PutAt(n).key == Decimals.DigitsOf(n)
  {
  }

  lemma PutsCount(n: nat)
    ensures |Puts(n)| == n
  {
  }

  // ---- Writing -------------------------------------------------------------------------------------

  lemma AlongOne(s: State, steps: seq<Step>, step: Step)
    requires Run(s, steps).Some? && Enabled(Run(s, steps).value, step)
    requires AllAlong(s, steps, HasRoom) && HasRoom(Run(s, steps).value, step)
    ensures Run(s, steps + [step]) == Some(Do(Run(s, steps).value, step)) && AllAlong(s, steps + [step], HasRoom)
  {
    hide Enabled, Do, HasRoom;
    assert (steps + [step])[..|steps|] == steps;
  }

  lemma FirstStart() returns (steps: seq<Step>)
    ensures Run(INITIAL, steps).Some? && AllAlong(INITIAL, steps, HasRoom) && Busy(Run(INITIAL, steps).value, 0)
  {
    hide Run, AllAlong, HasRoom, Formed, Booked, HeldAt, Order, Replay, Refill, Holdable, Quiet, NoLoad;
    InitiallyHolds();
    NothingThere();
    steps := RecoveryFinishes(INITIAL);
    QuietKeepsHistory(INITIAL, steps);
    ReachableSound(steps);
    AckedWhenBooked(Run(INITIAL, steps).value);
  }

  lemma NothingThere()
    ensures Order(INITIAL.disk.manifest) == [] && Replay(map[]) == map[] && Refill(map[]) == map[] && Holdable(map[])
  {
    NoFiles(INITIAL.disk.manifest, seq(LEVELS, i => i));
  }

  /** One writer, its record in the log, about to commit to a segment that is synced or active. */
  ghost predicate Written(s: State, n: nat) {
    && IsRunning(s) && s.hist == Puts(n + 1) && s.acked == n && s.phase.e.ssts == []
    && |s.phase.e.memtable| < THRESHOLD
    && s.phase.e.writers.Keys == {n} && s.phase.e.writers[n].Appended?
    && var g := s.phase.e.writers[n].gen;
    && g in s.disk.wals && (g == s.phase.e.gen || s.disk.wals[g].durable == |s.disk.wals[g].records|)
  }

  lemma PutStep(s: State, n: nat)
    requires Busy(s, n) && HasActiveWal(s) && n <= MAX_ENTRIES
    ensures Enabled(s, LockedWrite(PutAt(n))) && HasRoom(s, LockedWrite(PutAt(n)))
    ensures Written(Do(s, LockedWrite(PutAt(n))), n)
  {
    hide Puts, PutAt, Inserted;
    PutsMore(n);
    PutsCount(n);
    KeyOfPut(n);
    ShortKey(n);
  }

  /** The writer's segment is on the device. */
  ghost predicate Committable(s: State, n: nat) {
    && Written(s, n)
    && var w := s.disk.wals[s.phase.e.writers[n].gen]; w.durable == |w.records|
  }

  lemma SyncStep(s: State, n: nat)
    requires Written(s, n) && Booked(s) && HasActiveWal(s)
    ensures var step := WalReachesDevice(|s.disk.wals[s.phase.e.gen].records|);
            Enabled(s, step) && HasRoom(s, step) && Committable(Do(s, step), n)
  {
    hide Segmented, Acknowledged, Puts, Holdable;
  }

  lemma CommitSteps(s: State, n: nat)
    requires Committable(s, n)
    ensures Enabled(s, CommitCall(n)) && HasRoom(s, CommitCall(n))
    ensures var c := Do(s, CommitCall(n));
            Enabled(c, CommitReturn(n)) && HasRoom(c, CommitReturn(n)) && Busy(Do(c, CommitReturn(n)), n + 1)
  {
    hide Puts;
  }

  /** A put, its sync and its commit. */
  lemma OneMorePut(steps: seq<Step>, n: nat) returns (more: seq<Step>)
    requires Run(INITIAL, steps).Some? && AllAlong(INITIAL, steps, HasRoom) && Busy(Run(INITIAL, steps).value, n)
    requires n <= MAX_ENTRIES
    ensures Run(INITIAL, more).Some? && AllAlong(INITIAL, more, HasRoom) && Busy(Run(INITIAL, more).value, n + 1)
  {
    hide Run, AllAlong, HasRoom, Formed, Booked, Enabled, Do, Puts, HasActiveWal;
    var s := Run(INITIAL, steps).value;
    ReachableSound(steps);
    ActiveWhenBooked(s);
    PutStep(s, n);
    AlongOne(INITIAL, steps, LockedWrite(PutAt(n)));
    more := SyncAndCommit(steps + [LockedWrite(PutAt(n))], n);
  }

  lemma SyncAndCommit(steps: seq<Step>, n: nat) returns (more: seq<Step>)
    requires Run(INITIAL, steps).Some? && AllAlong(INITIAL, steps, HasRoom) && Written(Run(INITIAL, steps).value, n)
    ensures Run(INITIAL, more).Some? && AllAlong(INITIAL, more, HasRoom) && Busy(Run(INITIAL, more).value, n + 1)
  {
    hide Run, AllAlong, HasRoom, Formed, Booked, Enabled, Do, Puts;
    var s := Run(INITIAL, steps).value;
    ReachableSound(steps);
    ActiveWhenBooked(s);
    SyncStep(s, n);
    var sync := WalReachesDevice(|s.disk.wals[s.phase.e.gen].records|);
    AlongOne(INITIAL, steps, sync);
    CommitSteps(Do(s, sync), n);
    AlongOne(INITIAL, steps + [sync], CommitCall(n));
    AlongOne(INITIAL, steps + [sync] + [CommitCall(n)], CommitReturn(n));
    more := steps + [sync] + [CommitCall(n)] + [CommitReturn(n)];
  }

  /** As many committed puts as we like, up to one more than a memtable holds. */
  lemma {:induction false} ManyPuts(n: nat) returns (steps: seq<Step>)
    requires n <= MAX_ENTRIES + 1
    ensures Run(INITIAL, steps).Some? && AllAlong(INITIAL, steps, HasRoom) && Busy(Run(INITIAL, steps).value, n)
  {
    hide Run, AllAlong, HasRoom, Busy;
    if n == 0 {
      steps := FirstStart();
    } else {
      var before := ManyPuts(n - 1);
      steps := OneMorePut(before, n - 1);
    }
  }

  // ---- Crashing and recovering ---------------------------------------------------------------------

  /** Every record survives. */
  function WholeCuts(wals: map<nat, Wal>): (cuts: map<nat, nat>) {
    map g | g in wals :: |wals[g].records|
  }

  lemma WholeSurvives(s: State)
    requires Booked(s) && IsRunning(s)
    ensures Surviving(s.disk.wals, WholeCuts(s.disk.wals))
  {
    hide Acknowledged, Covers, Ascending, Holdable;
    var e, wals := s.phase.e, s.disk.wals;
    forall g | g in wals ensures wals[g].durable <= |wals[g].records| {
      if g != e.gen {
        assert g in wals - {e.gen};
      }
    }
  }

  /** The keys are numerals below n. */
  ghost predicate Below(store: Store, n: nat) {
    forall k | k in store :: Decimals.Digits(k) && Decimals.Nat(k) < n
  }

  lemma OneMoreKey(store: Store, n: nat)
    requires Below(store, n)
    ensures Below(store[PutAt(n).key := map[]], n + 1) && |store[PutAt(n).key := map[]]| == |store| + 1
  {
    var k := PutAt(n).key;
    Decimals.DigitsOfNat(n);
    assert store[k := map[]].Keys == store.Keys + {k};
  }

  lemma SpecOfPut(ws: seq<Write>, n: nat)
    ensures Spec(map[], ws + [PutAt(n)]) == Spec(map[], ws)[PutAt(n).key := map[]]
  {
    assert (ws + [PutAt(n)])[..|ws|] == ws;
  }

  lemma {:induction false} DistinctPuts(n: nat)
    ensures |Spec(map[], Puts(n))| == n && Below(Spec(map[], Puts(n)), n)
    decreases n
  {
    if n > 0 {
      hide Puts, PutAt, Spec, Below;
      DistinctPuts(n - 1);
      PutsMore(n - 1);
      SpecOfPut(Puts(n - 1), n - 1);
      OneMoreKey(Spec(map[], Puts(n - 1)), n - 1);
    } else {
      assert Puts(0) == [];
    }
  }

  /** A memtable that cannot hold the history lacks one of its keys. */
  lemma SomeKeyMissing(store: Store, table: Layer) returns (k: Key)
    requires Holdable(table) && |store| > MAX_ENTRIES
    ensures k in store && k !in table
  {
    if store.Keys <= table.Keys {
      FewerKeys(store.Keys, table.Keys);
      assert false;
    }
    k :| k in store.Keys && k !in table.Keys;
  }

  lemma NoFilesNoBase(s: State)
    requires Formed(s) && IsRunning(s) && s.phase.e.ssts == []
    ensures Order(s.disk.manifest) == []
  {
    hide FlushOk, CompactOk, Order, Sound;
  }

  lemma CrashKeepsManifest(s: State, cuts: map<nat, nat>)
    requires Enabled(s, Crash(cuts))
    ensures Do(s, Crash(cuts)).phase.Down? && Do(s, Crash(cuts)).disk.manifest == s.disk.manifest
    ensures HasRoom(s, Crash(cuts))
  {
  }

  /** Without files, what the memtable did not take is gone. */
  lemma LosesFrom(d: State) returns (more: seq<Step>, k: Key)
    requires Formed(d) && Booked(d) && d.phase.Down? && Order(d.disk.manifest) == [] && |Contents(d)| > MAX_ENTRIES
    ensures Quiet(more) && Run(d, more).Some? && IsRunning(Run(d, more).value)
    ensures k in Contents(d) && GetLocked(Run(d, more).value.phase.e, k) == None
  {
    hide Formed, Booked, Run, Refill, Replay, Contents, Order, GetLocked, AllAlong, Base, Holdable, Quiet, NoLoad;
    more := RecoveryFinishes(d);
    var t := Run(d, more).value;
    RefillHoldable(d.disk.wals);
    k := SomeKeyMissing(Contents(d), Refill(d.disk.wals));
    var files := Opened(Order(d.disk.manifest), d.disk.files);
    StartLooksUp(t, files, Refill(d.disk.wals), k);
    NothingUnder(files, Refill(d.disk.wals), k);
  }

  lemma NothingUnder(ssts: seq<Sst>, table: Layer, k: Key)
    requires ssts == [] && k !in table
    ensures Seen(Find(Base(ssts), k), On(table, k)) == None
  {
  }

  /**
   Every commit has returned and every step up to the crash has room.  No record is lost in the crash; still,
   recovery starts an engine that knows nothing of one of the keys.
   */
  lemma RecoveryLoses() returns (steps: seq<Step>, cuts: map<nat, nat>, more: seq<Step>, k: Key)
    ensures Run(INITIAL, steps).Some? && AllAlong(INITIAL, steps, HasRoom) && Quiet(more)
    ensures Run(INITIAL, steps + [Crash(cuts)] + more).Some?
    ensures var s, t := Run(INITIAL, steps).value, Run(INITIAL, steps + [Crash(cuts)] + more).value;
            && IsRunning(s) && s.phase.e.writers == map[] && s.acked == |s.hist| == MAX_ENTRIES + 1
            && IsRunning(t) && t.hist == s.hist
            && k in Spec(map[], s.hist) && GetLocked(t.phase.e, k) == None
  {
    hide Run, AllAlong, HasRoom, Formed, Booked, Enabled, Do, Quiet, GetLocked, Spec, Puts, Order, Surviving, Below;
    steps := ManyPuts(MAX_ENTRIES + 1);
    var s := Run(INITIAL, steps).value;
    ReachableSound(steps);
    NoFilesNoBase(s);
    cuts := WholeCuts(s.disk.wals);
    WholeSurvives(s);
    PutsCount(MAX_ENTRIES + 1);
    DistinctPuts(MAX_ENTRIES + 1);
    CrashLosesOnlyUnacknowledged(steps, cuts);
    CrashKeepsManifest(s, cuts);
    AlongOne(INITIAL, steps, Crash(cuts));
    var d := Do(s, Crash(cuts));
    assert d.hist == s.hist;
    ReachableSound(steps + [Crash(cuts)]);
    more, k := LosesFrom(d);
    RunOn(INITIAL, steps + [Crash(cuts)], more);
    QuietKeepsHistory(d, more);
  }
}
