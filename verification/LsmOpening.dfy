/** What opening a directory amounts to: one undisturbed recovery, as a closed form. */
module LsmOpening {
  import opened Bytes
  import opened Layers
  import opened Memtables
  import opened OneKey
  import opened Manifests
  import opened LsmStates
  import opened LsmInvariants
  import opened LsmRecovery
  import opened LsmTheorems
  import opened LsmProgress
  import ManifestFiles

  /** The files that the manifest names. */
  function Referenced(m: Manifest, files: map<Path, Sst>): (r: map<Path, Sst>)
    requires AllPresent(Order(m), files)
  {
    map p | p in files && exists i :: 0 <= i < |Order(m)| && Order(m)[i].path == p :: files[p]
  }

  /** The engine that recovery leaves, its memtable checkpointed in the given order. */
  function Recovered(s: State, order: seq<Write>): (r: State)
    requires AllPresent(Order(s.disk.manifest), s.disk.files)
  {
    var m, files, wals := s.disk.manifest, s.disk.files, s.disk.wals;
    var g := NextGeneration(wals);
    State(Disk(map[g := Wal(order, |order|)], m, Referenced(m, files)),
          Running(Engine(Refill(wals), [], Opened(Order(m), files), g, m, FlushIdle, CompactIdle, map[], map[])),
          s.hist, s.acked, |s.hist|, |order|)
  }

  // ---- Stage by stage ------------------------------------------------------------------------------

  function WithFiles(s: State, files: map<Path, Sst>): (r: State) {
    s.(disk := s.disk.(files := files))
  }

  function WithWals(s: State, wals: map<nat, Wal>): (r: State) {
    s.(disk := s.disk.(wals := wals))
  }

  /** Orphans go one by one, in any order. */
  lemma {:induction false} OrphansGo(s: State, kept: map<Path, Sst>, orphans: set<Path>) returns (more: seq<Step>)
    requires s.phase.Loading? && orphans <= s.disk.files.Keys && kept == s.disk.files - orphans
    requires forall i | 0 <= i < |s.phase.ssts| :: s.phase.ssts[i].path !in orphans
    ensures Quiet(more) && Run(s, more) == Some(WithFiles(s, kept))
    decreases orphans
  {
    hide Run;
    if orphans == {} {
      more := [];
      NoMore(s);
      assert kept == s.disk.files;
    } else {
      var p :| p in orphans;
      var t := DoRemoveOrphan(s, p);
      assert t.disk.files - (orphans - {p}) == kept;
      var rest := OrphansGo(t, kept, orphans - {p});
      RunFirst(s, RemoveOrphan(p), rest);
      more := [RemoveOrphan(p)] + rest;
    }
  }

  /** Append and sync, record by record. */
  lemma {:induction false} CheckpointGoes(s: State) returns (more: seq<Step>)
    requires s.phase.Checkpointing? && s.phase.gen in s.disk.wals
    requires s.disk.wals[s.phase.gen].durable == |s.disk.wals[s.phase.gen].records|
    ensures var all := s.disk.wals[s.phase.gen].records + s.phase.todo;
            && Quiet(more)
            && Run(s, more) == Some(WithWals(s,
                s.disk.wals[s.phase.gen := Wal(all, |all|)]).(phase := s.phase.(todo := [])))
    decreases |s.phase.todo|
  {
    hide Run;
    var g, w, todo := s.phase.gen, s.disk.wals[s.phase.gen], s.phase.todo;
    if todo == [] {
      more := [];
      NoMore(s);
      assert w.records + todo == w.records && s.disk.wals[g := w] == s.disk.wals;
    } else {
      var a := DoCheckpointAppend(s);
      var b := DoReachDevice(a, |w.records| + 1);
      assert (w.records + [todo[0]]) + todo[1..] == w.records + todo;
      assert b.disk.wals == s.disk.wals[g := Wal(w.records + [todo[0]], |w.records| + 1)];
      var rest := CheckpointGoes(b);
      RunFirst(a, WalReachesDevice(|w.records| + 1), rest);
      RunFirst(s, CheckpointAppend, [WalReachesDevice(|w.records| + 1)] + rest);
      more := [CheckpointAppend] + ([WalReachesDevice(|w.records| + 1)] + rest);
      var all := w.records + todo;
      assert b.disk.wals[g := Wal(all, |all|)] == s.disk.wals[g := Wal(all, |all|)];
    }
  }

  lemma CanStart(s: State)
    requires s.phase.Deleting? && s.phase.gen in s.disk.wals && s.disk.wals.Keys == {s.phase.gen}
    ensures Enabled(s, Start) && Do(s, Start) == DoStart(s)
  {
  }

  lemma CanDelete(s: State, g: nat)
    requires s.phase.Deleting? && g in s.disk.wals && g != s.phase.gen
    ensures Enabled(s, DeleteSegment(g)) && Do(s, DeleteSegment(g)) == DoDeleteSegment(s, g)
  {
  }

  lemma CanReplay(s: State, order: seq<Write>)
    requires s.phase.Loading? && Enumerates(order, Refill(s.disk.wals))
    ensures Enabled(s, ReplayLogs(order)) && Do(s, ReplayLogs(order)) == DoReplay(s, order)
  {
  }

  lemma CanGoOn(s: State)
    requires s.phase.Checkpointing? && s.phase.todo == [] && s.phase.gen in s.disk.wals
    requires s.disk.wals[s.phase.gen].durable == |s.disk.wals[s.phase.gen].records|
    ensures Enabled(s, CheckpointDone) && Do(s, CheckpointDone) == DoCheckpointDone(s)
  {
  }

  /** Old segments go one by one, and the engine starts. */
  lemma {:induction false} SegmentsGo(s: State) returns (more: seq<Step>)
    requires s.phase.Deleting? && s.phase.gen in s.disk.wals
    ensures Quiet(more) && Run(s, more) == Some(DoStart(WithWals(s, map[s.phase.gen := s.disk.wals[s.phase.gen]])))
    decreases |s.disk.wals|
  {
    hide Run, Enabled, Do;
    var g := s.phase.gen;
    if s.disk.wals.Keys == {g} {
      assert s.disk.wals == map[g := s.disk.wals[g]];
      more := [Start] + [];
      CanStart(s);
      RunFirst(s, Start, []);
      NoMore(DoStart(s));
    } else {
      var stale := OtherSegment(s.disk.wals, g);
      SmallerMap(s.disk.wals, stale);
      var t := DoDeleteSegment(s, stale);
      CanDelete(s, stale);
      var rest := SegmentsGo(t);
      RunFirst(s, DeleteSegment(stale), rest);
      more := [DeleteSegment(stale)] + rest;
    }
  }

  // ---- All of it -----------------------------------------------------------------------------------

  lemma QuietJoin(a: seq<Step>, b: seq<Step>)
    requires Quiet(a) && Quiet(b)
    ensures Quiet(a + b)
  {
  }

  lemma Chain(s: State, a: seq<Step>, t: State, b: seq<Step>)
    requires Run(s, a) == Some(t) && Quiet(a) && Quiet(b)
    ensures Quiet(a + b) && Run(s, a + b) == Run(t, b)
  {
    hide Run;
    RunOn(s, a, b);
    QuietJoin(a, b);
  }

  lemma OneQuietStep(s: State, step: Step)
    requires Enabled(s, step) && !step.LockedWrite? && !step.Crash?
    ensures Quiet([step]) && Run(s, [step]) == Some(Do(s, step))
  {
    hide Run;
    RunFirst(s, step, []);
    NoMore(Do(s, step));
    assert [step] + [] == [step];
  }

  lemma LoadsReferenced(s: State) returns (more: seq<Step>)
    requires s.phase.Down? && AllPresent(Order(s.disk.manifest), s.disk.files)
    ensures Quiet(more)
    ensures Run(s, more) == Some(WithFiles(DoLoad(s), Referenced(s.disk.manifest, s.disk.files)))
  {
    hide Run, Order;
    var m, files := s.disk.manifest, s.disk.files;
    var kept := Referenced(m, files);
    var t := DoLoad(s);
    OneQuietStep(s, Load);
    assert kept == files - (files.Keys - kept.Keys);
    forall i | 0 <= i < |t.phase.ssts| ensures t.phase.ssts[i].path !in files.Keys - kept.Keys {
      assert Order(m)[i].path in kept;
    }
    var rest := OrphansGo(t, kept, files.Keys - kept.Keys);
    Chain(s, [Load], t, rest);
    more := [Load] + rest;
  }

  lemma RecoversFrom(s: State, order: seq<Write>) returns (more: seq<Step>)
    requires s.phase.Loading? && Enumerates(order, Refill(s.disk.wals))
    ensures var g := NextGeneration(s.disk.wals);
            && Quiet(more)
            && Run(s, more) == Some(State(Disk(map[g := Wal(order, |order|)], s.disk.manifest, s.disk.files),
                 Running(Engine(Refill(s.disk.wals), [], s.phase.ssts, g, s.phase.manifest, FlushIdle, CompactIdle,
                     map[], map[])), s.hist, s.acked, |s.hist|, |order|))
  {
    hide Run, Refill, Enumerates, Quiet, Enabled, Do, NextGeneration;
    var g := NextGeneration(s.disk.wals);
    CanReplay(s, order);
    OneQuietStep(s, ReplayLogs(order));
    var a := DoReplay(s, order);
    var first := CheckpointGoes(a);
    assert [] + order == order;
    var b := Run(a, first).value;
    CanGoOn(b);
    OneQuietStep(b, CheckpointDone);
    var c := DoCheckpointDone(b);
    var last := SegmentsGo(c);
    Chain(b, [CheckpointDone], c, last);
    Chain(a, first, b, [CheckpointDone] + last);
    Chain(s, [ReplayLogs(order)], a, first + ([CheckpointDone] + last));
    more := [ReplayLogs(order)] + (first + ([CheckpointDone] + last));
  }

  /** Opening is a run of the state machine, in whatever state the directory is. */
  lemma OpensTo(s: State, order: seq<Write>) returns (more: seq<Step>)
    requires s.phase.Down? && AllPresent(Order(s.disk.manifest), s.disk.files)
    requires Enumerates(order, Refill(s.disk.wals))
    ensures Quiet(more) && Run(s, more) == Some(Recovered(s, order))
  {
    hide Run, Refill, Order, Enumerates, Quiet, AllPresent, Referenced;
    var first := LoadsReferenced(s);
    var t := Run(s, first).value;
    var last := RecoversFrom(t, order);
    Chain(s, first, t, last);
    more := first + last;
  }

  lemma FilesPresent(s: State)
    requires s.phase.Down? && Formed(s)
    ensures AllPresent(Order(s.disk.manifest), s.disk.files)
  {
    hide Order, Sound;
  }

  // ---- What the opened engine serves ---------------------------------------------------------------

  /** The log knows the key, the memtable did not take it, and the files answer differently. */
  ghost predicate Forgotten(s: State, k: Key) {
    && Replays(s) && AllPresent(Order(s.disk.manifest), s.disk.files)
    && k in Replay(s.disk.wals) && k !in Refill(s.disk.wals)
    && Find(Base(Opened(Order(s.disk.manifest), s.disk.files)), k) != Find(Contents(s), k)
  }

  /** A log that one memtable can hold leaves nothing to forget. */
  lemma NothingForgotten(s: State, k: Key)
    requires Holdable(Replay(s.disk.wals))
    ensures !Forgotten(s, k)
  {
    hide Holdable, Replay, Refill, Base, Order;
    RefillKeeps(s.disk.wals);
  }

  lemma StartLooksUp(t: State, ssts: seq<Sst>, memtable: Layer, k: Key)
    requires Starts(t, ssts, memtable)
    ensures GetLocked(t.phase.e, k) == Seen(Find(Base(ssts), k), On(memtable, k))
  {
    hide Base, Find, Seen, GetLocked;
    GetSees(t.phase.e, k);
    assert On(FrozenLayer([]), k) == None;
  }

  /** What recovery starts with answers a key as the history does, unless the key is forgotten. */
  lemma ServesUnlessForgotten(s: State, t: State, k: Key)
    requires Replays(s) && HeldAt(s, k) && AllPresent(Order(s.disk.manifest), s.disk.files)
    requires Starts(t, Opened(Order(s.disk.manifest), s.disk.files), Refill(s.disk.wals))
    ensures GetLocked(t.phase.e, k) == Find(Contents(s), k) <==> !Forgotten(s, k)
  {
    hide Order, AllPresent, Base, Replay, Refill, Contents, Starts, GetLocked, Find;
    StartLooksUp(t, Opened(Order(s.disk.manifest), s.disk.files), Refill(s.disk.wals), k);
    RefillIsPart(s.disk.wals);
  }

  lemma RecoveredStarts(s: State, order: seq<Write>)
    requires AllPresent(Order(s.disk.manifest), s.disk.files)
    ensures Starts(Recovered(s, order), Opened(Order(s.disk.manifest), s.disk.files), Refill(s.disk.wals))
  {
    hide Order, AllPresent, Refill;
  }

  /** The opened engine holds at a key what the history says exactly when it serves that. */
  lemma RecoveredHolds(s: State, order: seq<Write>, k: Key)
    requires AllPresent(Order(s.disk.manifest), s.disk.files) && Enumerates(order, Refill(s.disk.wals))
    ensures HeldAt(Recovered(s, order), k) <==> GetLocked(Recovered(s, order).phase.e, k) == Find(Contents(s), k)
  {
    hide Order, AllPresent, Refill, Base, Spec, LogLayer, Find, Seen, GetLocked, Opened, Referenced, NextGeneration;
    EnumeratedLayer(order, Refill(s.disk.wals));
    RecoveredStarts(s, order);
    StartLooksUp(Recovered(s, order), Opened(Order(s.disk.manifest), s.disk.files), Refill(s.disk.wals), k);
    assert order[..|order|] == order && s.hist[..|s.hist|] == s.hist;
    assert On(FrozenLayer([]), k) == None;
  }

  /**
   Opening the directory of any crash is a run of the state machine.  The engine it leaves has the invariant exactly
   when no key is forgotten, which a log that one memtable can hold guarantees.
   */
  lemma OpensByRunning(s: State, order: seq<Write>) returns (more: seq<Step>)
    requires s.phase.Down? && Inv(s) && Enumerates(order, Refill(s.disk.wals))
    ensures AllPresent(Order(s.disk.manifest), s.disk.files)
    ensures Quiet(more) && Run(s, more) == Some(Recovered(s, order))
    ensures Live(Recovered(s, order)) <==> forall k :: !Forgotten(s, k)
  {
    hide Run, Refill, Replay, Order, Enumerates, Quiet, AllPresent, Referenced, Formed, Booked, HeldAt, Forgotten;
    hide Contents, GetLocked, Find, Starts;
    FilesPresent(s);
    more := OpensTo(s, order);
    var t := Recovered(s, order);
    RunStaysSound(s, more);
    RecoveredStarts(s, order);
    forall k: Key ensures HeldAt(t, k) <==> !Forgotten(s, k) {
      assert HeldAt(s, k);
      RecoveredHolds(s, order, k);
      ServesUnlessForgotten(s, t, k);
    }
  }

  // ---- Through the bytes of the manifest -----------------------------------------------------------

  /**
   In any reachable state: the saved catalogue, written as a manifest with the files' names and read again, is the
   catalogue of these bytes, and opening its files in order gives the live deque.
   */
  lemma ManifestReopens(steps: seq<Step>, n: ManifestFiles.Names, m: Manifest)
    requires Run(INITIAL, steps).Some? && IsRunning(Run(INITIAL, steps).value)
    requires ManifestFiles.Short(n) && ManifestFiles.Representable(Run(INITIAL, steps).value.disk.manifest)
    requires var saved := ManifestFiles.CatalogueOf(Run(INITIAL, steps).value.disk.manifest, n);
             |ManifestFiles.ManifestBytes(saved)| <= ManifestFiles.MAX_FILE
    requires ManifestFiles.Representable(m)
    requires var saved := ManifestFiles.CatalogueOf(Run(INITIAL, steps).value.disk.manifest, n);
             ManifestFiles.LoadBytes(ManifestFiles.ManifestBytes(saved)) == Some(ManifestFiles.CatalogueOf(m, n))
    ensures var s := Run(INITIAL, steps).value;
            m == s.disk.manifest && AllPresent(Order(m), s.disk.files)
                && Opened(Order(m), s.disk.files) == s.phase.e.ssts
  {
    hide Run, Order, ManifestFiles.ManifestBytes, ManifestFiles.LoadBytes, ManifestFiles.Short;
    hide ManifestFiles.CatalogueOf, ManifestFiles.Representable, AllPresent, Formed, Booked, WellLevelled;
    var s := Run(INITIAL, steps).value;
    PrecedenceSurvivesRestart(steps);
    ReachableSound(steps);
    SavedIsLevelled(s);
    ManifestFiles.CatalogueSurvives(s.disk.manifest, n);
    ManifestFiles.CatalogueDetermines(m, s.disk.manifest, n);
  }

  lemma SavedIsLevelled(s: State)
    requires Formed(s)
    ensures WellLevelled(s.disk.manifest)
  {
    hide Order, FlushOk, CompactOk, WellLevelled;
  }

  /** Names for a directory, with no key ranges. */
  lemma NamesExist(dir: ByteString)
    requires |dir| + 40 <= ManifestFiles.MAX_TEXT
    ensures ManifestFiles.Short(ManifestFiles.Names(dir, p => [], p => []))
  {
  }
}
