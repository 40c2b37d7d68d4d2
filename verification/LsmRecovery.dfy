/** Crashes and recovery: what they do to the three parts of the invariant. */
module LsmRecovery {
  import opened Bytes
  import opened Values
  import opened Layers
  import opened Memtables
  import opened OneKey
  import opened Manifests
  import opened LsmStates
  import opened LsmInvariants
  import opened LsmSteps

  // ---- Crashes -------------------------------------------------------------------------------------

  function CutWals(wals: map<nat, Wal>, cuts: map<nat, nat>): (r: map<nat, Wal>)
    requires Surviving(wals, cuts)
  {
    map g | g in wals :: Wal(wals[g].records[..cuts[g]], cuts[g])
  }

  lemma DurableSurvives(wals: map<nat, Wal>, cuts: map<nat, nat>, g: nat)
    requires Surviving(wals, cuts) && g in wals && wals[g].durable == |wals[g].records|
    ensures CutWals(wals, cuts)[g] == wals[g]
  {
    assert wals[g].records[..|wals[g].records|] == wals[g].records;
  }

  /** Nothing unsynced, nothing lost. */
  lemma AllDurableSurvives(wals: map<nat, Wal>, cuts: map<nat, nat>)
    requires Surviving(wals, cuts) && AllDurable(wals)
    ensures CutWals(wals, cuts) == wals
  {
    forall g | g in wals ensures CutWals(wals, cuts)[g] == wals[g] {
      DurableSurvives(wals, cuts, g);
    }
  }

  lemma OthersSurvive(wals: map<nat, Wal>, gen: nat, cuts: map<nat, nat>)
    requires gen in wals && AllDurable(wals - {gen}) && Surviving(wals, cuts)
    ensures CutWals(wals, cuts) == wals[gen := CutWals(wals, cuts)[gen]]
  {
    forall g | g in wals && g != gen ensures CutWals(wals, cuts)[g] == wals[g] {
      assert g in wals - {gen};
      DurableSurvives(wals, cuts, g);
    }
  }

  /** A crash can happen at any time, at any cut, and what is acknowledged is behind every cut. */
  lemma CrashBooks(s: State, cuts: map<nat, nat>)
    requires Booked(s) && Surviving(s.disk.wals, cuts)
    ensures Enabled(s, Crash(cuts)) && Booked(DoCrash(s, cuts))
    ensures DoCrash(s, cuts).hist <= s.hist && s.acked <= |DoCrash(s, cuts).hist|
  {
    hide Segmented, Enumerates, LogLayer, Holdable;
    AckedWhenBooked(s);
    if s.phase.Running? {
      TailLength(s, s.phase.e);
    }
  }

  lemma CrashForms(s: State, cuts: map<nat, nat>)
    requires Formed(s) && Enabled(s, Crash(cuts))
    ensures Formed(DoCrash(s, cuts))
  {
    hide Order, Sound, Opened, FlushOk, CompactOk;
  }

  /** The published segment's layer, if it is still there. */
  ghost function Published(e: Engine, wals: map<nat, Wal>): (l: Layer)
    requires e.flush.FlushPublished? ==> e.flush.gen in wals
  {
    if e.flush.FlushPublished? then LogLayer(wals[e.flush.gen].records) else map[]
  }

  lemma ReplayFront(e: Engine, wals: map<nat, Wal>)
    requires e.flush.FlushPublished? ==> e.flush.gen in wals
    ensures var front: seq<nat> := if e.flush.FlushPublished? then [e.flush.gen] else [];
            ReplayList(wals, front) == Published(e, wals)
  {
    if e.flush.FlushPublished? {
      ReplayOne(wals, e.flush.gen);
    }
  }

  lemma ReplayThree(wals: map<nat, Wal>, front: seq<nat>, frozen: seq<nat>, g: nat)
    requires g in wals && (forall i | 0 <= i < |frozen| :: frozen[i] in wals)
             && (forall i | 0 <= i < |front| :: front[i] in wals)
    ensures forall i | 0 <= i < |front + (frozen + [g])| :: (front + (frozen + [g]))[i] in wals
    ensures ReplayList(wals, front + (frozen + [g]))
         == ReplayList(wals, front) + (ReplayList(wals, frozen) + LogLayer(wals[g].records))
  {
    hide LogLayer, ReplayList;
    ReplayListAppend(wals, frozen, [g]);
    ReplayListAppend(wals, front, frozen + [g]);
    ReplayOne(wals, g);
  }

  /** A directory, replayed: at this key the published segment, the frozen memtables, the active segment. */
  lemma ReplayGens(wals: map<nat, Wal>, e: Engine, k: Key)
    requires Ascending(Gens(e)) && Covers(Gens(e), wals) && FrozenAt(e.frozen, wals, k) && e.gen in wals
    requires e.flush.FlushPublished? ==> e.flush.gen in wals
    ensures On(Replay(wals), k)
         == Over(On(Published(e, wals), k), Over(On(FrozenLayer(e.frozen), k), On(LogLayer(wals[e.gen].records), k)))
  {
    var frozen := FrozenGens(e.frozen);
    var front: seq<nat> := if e.flush.FlushPublished? then [e.flush.gen] else [];
    assert Gens(e) == front + (frozen + [e.gen]);
    hide LogLayer, Replay, Covers, Ascending, Gens, On, FrozenLayer;
    FrozenReplay(e.frozen, wals, k);
    hide FrozenAt, FrozenGens;
    ReplayInOrder(wals, Gens(e));
    ReplayThree(wals, front, frozen, e.gen);
    ReplayFront(e, wals);
    OnMerge(ReplayList(wals, frozen), LogLayer(wals[e.gen].records), k);
    OnMerge(ReplayList(wals, front), ReplayList(wals, frozen) + LogLayer(wals[e.gen].records), k);
  }

  /** A layer the store already contains changes nothing underneath another. */
  lemma PublishedAdds(below: Option<Item>, e: Engine, wals: map<nat, Wal>, k: Key, tail: Option<Entry>)
    requires e.flush.FlushPublished? ==>
               e.flush.gen in wals && Seen(below, On(LogLayer(wals[e.flush.gen].records), k)) == below
    ensures Seen(below, Over(On(Published(e, wals), k), tail)) == Seen(below, tail)
  {
    hide LogLayer;
    SeenOver(below, On(Published(e, wals), k), tail);
  }

  lemma CutCovers(wals: map<nat, Wal>, e: Engine, w: Wal)
    requires Segmented(wals, e) && e.gen in wals
    ensures Ascending(Gens(e)) && Covers(Gens(e), wals[e.gen := w])
  {
    hide Ascending, Gens;
  }

  /** What is left of a running engine's directory holds, at this key, a prefix of the history. */
  lemma CrashContents(s: State, cuts: map<nat, nat>, k: Key)
    requires IsRunning(s) && Booked(s) && HeldAt(s, k) && Surviving(s.disk.wals, cuts)
    ensures HasActiveWal(s) && CutPoint(s, cuts) <= |s.hist|
    ensures Seen(Find(Base(s.phase.e.ssts), k), On(Replay(CutWals(s.disk.wals, cuts)), k))
         == Find(Spec(map[], s.hist[..CutPoint(s, cuts)]), k)
  {
    hide Base, CutWals, Replay, Gens, Spec, LogLayer, On, Seen, Find, FrozenLayer, Ascending, Covers, Holdable;
    GensBelow(s);
    var e, wals, left := s.phase.e, s.disk.wals, CutWals(s.disk.wals, cuts);
    TailLength(s, e);
    PrefixContents(s, e, cuts[e.gen], k);
    OthersSurvive(wals, e.gen, cuts);
    CutIs(wals, cuts, e.gen);
    CutCovers(wals, e, left[e.gen]);
    FrozenUpdate(e.frozen, wals, e.gen, left[e.gen], k);
    ReplayGens(left, e, k);
    PublishedAdds(Find(Base(e.ssts), k), e, left, k,
        Over(On(FrozenLayer(e.frozen), k), On(LogLayer(left[e.gen].records), k)));
  }

  lemma CutIs(wals: map<nat, Wal>, cuts: map<nat, nat>, g: nat)
    requires Surviving(wals, cuts) && g in wals
    ensures CutWals(wals, cuts)[g].records == wals[g].records[..cuts[g]]
  {
  }

  lemma SavedCatalogue(s: State)
    requires Shaped(s)
    ensures IsRunning(s) && AllPresent(Order(s.disk.manifest), s.disk.files)
    ensures Opened(Order(s.disk.manifest), s.disk.files) == s.phase.e.ssts
  {
    hide FlushOk, CompactOk, Order, Sound;
  }

  lemma CrashIsDoCrash(s: State, cuts: map<nat, nat>)
    requires Enabled(s, Crash(cuts))
    ensures Surviving(s.disk.wals, cuts) && (IsRunning(s) ==> HasActiveWal(s) && CutPoint(s, cuts) <= |s.hist|)
    ensures Do(s, Crash(cuts)) == DoCrash(s, cuts)
  {
  }

  lemma RunningCrash(s: State, cuts: map<nat, nat>, k: Key)
    requires Shaped(s) && Booked(s) && HeldAt(s, k) && Enabled(s, Crash(cuts))
    ensures HeldAt(Do(s, Crash(cuts)), k)
  {
    hide Shaped, Booked, HeldAt, Base, Replay, Order, Spec, AllPresent, Enabled, Do;
    CrashIsDoCrash(s, cuts);
    SavedCatalogue(s);
    CrashContents(s, cuts, k);
    RestsAt(DoCrash(s, cuts), CutWals(s.disk.wals, cuts), s.phase.e.ssts, k);
  }

  lemma RestsAt(s: State, wals: map<nat, Wal>, ssts: seq<Sst>, k: Key)
    requires (s.phase.Down? || s.phase.Loading?) && AllPresent(Order(s.disk.manifest), s.disk.files)
    requires s.disk.wals == wals && Opened(Order(s.disk.manifest), s.disk.files) == ssts
    requires Seen(Find(Base(ssts), k), On(Replay(wals), k)) == Find(Contents(s), k)
    ensures HeldAt(s, k)
  {
    hide Base, Replay, Order, Contents;
  }

  /** A layer overwritten with some of its own entries is the same layer. */
  lemma RestatedLayer(l: Layer, ws: seq<Write>)
    requires Restates(ws, l)
    ensures l + LogLayer(ws) == l
    decreases |ws|
  {
    if ws != [] {
      var init, w := ws[..|ws|-1], ws[|ws|-1];
      RestatedLayer(l, init);
      assert l + LogLayer(ws) == (l + LogLayer(init))[w.key := EntryOf(w)];
    }
  }

  lemma EnumeratedLayer(ws: seq<Write>, l: Layer)
    requires Enumerates(ws, l)
    ensures LogLayer(ws) == l
  {
    RestatedLayer(l, ws);
    LogLayerKeys(ws);
    assert LogLayer(ws).Keys == l.Keys;
    assert forall k | k in l :: LogLayer(ws)[k] == (l + LogLayer(ws))[k];
  }

  /** The part of a checkpoint that reached the device says nothing new. */
  lemma PrefixRestates(ws: seq<Write>, todo: seq<Write>, c: nat, l: Layer)
    requires Enumerates(ws + todo, l) && c <= |ws|
    ensures l + LogLayer(ws[..c]) == l
  {
    forall i | 0 <= i < c ensures ws[..c][i].key in l && l[ws[..c][i].key] == EntryOf(ws[..c][i]) {
      assert ws[..c][i] == (ws + todo)[i];
    }
    RestatedLayer(l, ws[..c]);
  }

  lemma CheckpointCrash(s: State, cuts: map<nat, nat>, k: Key)
    requires s.phase.Checkpointing? && Formed(s) && Booked(s) && HeldAt(s, k) && Enabled(s, Crash(cuts))
    ensures HeldAt(Do(s, Crash(cuts)), k)
  {
    hide Order, Sound, Holdable, Enumerates, Replay, Base, LogLayer, Spec, AllPresent, Enabled, Do;
    CrashIsDoCrash(s, cuts);
    var p := s.phase;
    var wals: map<nat, Wal>, left: map<nat, Wal> := s.disk.wals, CutWals(s.disk.wals, cuts);
    OthersSurvive(wals, p.gen, cuts);
    CutIs(wals, cuts, p.gen);
    assert left - {p.gen} == wals - {p.gen};
    ReplayTop(left, p.gen);
    PrefixRestates(wals[p.gen].records, p.todo, cuts[p.gen], p.memtable);
    OnMerge(Replay(wals - {p.gen}), LogLayer(left[p.gen].records), k);
    OnMerge(p.memtable, LogLayer(left[p.gen].records), k);
    RestsAt(DoCrash(s, cuts), left, p.ssts, k);
  }

  lemma DeletingReplay(wals: map<nat, Wal>, gen: nat, l: Layer, k: Key)
    requires gen in wals && (forall g | g in wals :: g <= gen)
    requires l == LogLayer(wals[gen].records)
    requires forall g | g in wals && k in LogLayer(wals[g].records) :: k in l
    ensures On(Replay(wals), k) == On(l, k)
  {
    hide LogLayer, Replay;
    ReplayTop(wals, gen);
    if k !in l {
      ReplayLacks(wals - {gen}, k);
    }
  }

  lemma DeletingCrash(s: State, cuts: map<nat, nat>, k: Key)
    requires s.phase.Deleting? && Formed(s) && Booked(s) && HeldAt(s, k) && Enabled(s, Crash(cuts))
    ensures HeldAt(Do(s, Crash(cuts)), k)
  {
    hide Order, Sound, Holdable, Replay, Base, LogLayer, Spec, AllPresent, Enabled, Do;
    CrashIsDoCrash(s, cuts);
    AllDurableSurvives(s.disk.wals, cuts);
    DeletingReplay(s.disk.wals, s.phase.gen, s.phase.memtable, k);
    RestsAt(DoCrash(s, cuts), CutWals(s.disk.wals, cuts), s.phase.ssts, k);
  }

  lemma IdleCrash(s: State, cuts: map<nat, nat>, k: Key)
    requires (s.phase.Down? || s.phase.Loading?) && Booked(s) && HeldAt(s, k) && Enabled(s, Crash(cuts))
    ensures HeldAt(Do(s, Crash(cuts)), k)
  {
    hide Order, Replay, Base, Spec, AllPresent, Enabled, Do;
    CrashIsDoCrash(s, cuts);
    AllDurableSurvives(s.disk.wals, cuts);
    RestsAt(DoCrash(s, cuts), CutWals(s.disk.wals, cuts), Opened(Order(s.disk.manifest), s.disk.files), k);
  }

  lemma CrashHolds(s: State, cuts: map<nat, nat>, k: Key)
    requires Formed(s) && Booked(s) && HeldAt(s, k) && Enabled(s, Crash(cuts))
    ensures HeldAt(Do(s, Crash(cuts)), k)
  {
    hide Formed, Booked, HeldAt, Enabled, Do;
    match s.phase
    case Running(_) =>
      ShapedWhenRunning(s);
      RunningCrash(s, cuts, k);
    case Checkpointing(_, _, _, _, _) => CheckpointCrash(s, cuts, k);
    case Deleting(_, _, _, _) => DeletingCrash(s, cuts, k);
    case Down => IdleCrash(s, cuts, k);
    case Loading(_, _) => IdleCrash(s, cuts, k);
  }

  // ---- Loading -------------------------------------------------------------------------------------

  lemma LoadForms(s: State)
    requires Formed(s) && s.phase.Down?
    ensures Enabled(s, Load) && Formed(DoLoad(s))
  {
    hide Order, Sound;
  }

  lemma OrphanUnused(files: map<Path, Sst>, o: seq<Meta>, p: Path)
    requires AllPresent(o, files) && forall i | 0 <= i < |o| :: Opened(o, files)[i].path != p
    ensures AllPresent(o, files - {p}) && Opened(o, files - {p}) == Opened(o, files)
  {
    forall i | 0 <= i < |o| ensures o[i].path != p {
      assert Opened(o, files)[i].path == o[i].path;
    }
  }

  lemma RemoveOrphanForms(s: State, p: Path)
    requires Formed(s) && Enabled(s, RemoveOrphan(p))
    ensures Formed(DoRemoveOrphan(s, p))
  {
    hide Order, Sound;
    OrphanUnused(s.disk.files, Order(s.disk.manifest), p);
  }

  lemma RemoveOrphanHolds(s: State, p: Path, k: Key)
    requires Formed(s) && Enabled(s, RemoveOrphan(p)) && HeldAt(s, k)
    ensures HeldAt(DoRemoveOrphan(s, p), k)
  {
    hide Order, Sound, Replay, Base, Spec;
    OrphanUnused(s.disk.files, Order(s.disk.manifest), p);
  }

  // ---- Replaying -----------------------------------------------------------------------------------

  lemma FreshGeneration(wals: map<nat, Wal>, g: nat)
    requires g == NextGeneration(wals)
    ensures g !in wals && (forall x | x in wals :: x <= g) && wals[g := Wal([], 0)] - {g} == wals
  {
  }

  lemma ReplayBooks(s: State, order: seq<Write>)
    requires s.phase.Loading? && Booked(s) && Enumerates(order, Refill(s.disk.wals))
    ensures Booked(DoReplay(s, order))
  {
    hide Refill, Holdable, NextGeneration;
    FreshGeneration(s.disk.wals, NextGeneration(s.disk.wals));
    RefillHoldable(s.disk.wals);
    assert [] + order == order;
  }

  /** At each key for itself: the recovered memtable is as the segments say exactly when it took the key. */
  lemma ReplayHoldsIff(s: State, order: seq<Write>, k: Key)
    requires Formed(s) && s.phase.Loading? && HeldAt(s, k)
    ensures HeldAt(DoReplay(s, order), k) <==> (k in Replay(s.disk.wals) ==> k in Refill(s.disk.wals))
  {
    hide Order, Sound, Replay, Refill, Base, Spec, NextGeneration, AllPresent;
    FreshGeneration(s.disk.wals, NextGeneration(s.disk.wals));
    RefillIsPart(s.disk.wals);
  }

  lemma ReplayForms(s: State, order: seq<Write>)
    requires Formed(s) && s.phase.Loading?
    ensures Formed(DoReplay(s, order))
  {
    hide Catalogued, Refill;
  }

  // ---- The checkpoint ------------------------------------------------------------------------------

  lemma CheckpointAppendBooks(s: State)
    requires s.phase.Checkpointing? && Booked(s) && s.phase.todo != []
    ensures Booked(DoCheckpointAppend(s))
  {
    hide Enumerates, Holdable;
    var p := s.phase;
    var wals: map<nat, Wal>, wals': map<nat, Wal> := s.disk.wals, DoCheckpointAppend(s).disk.wals;
    assert wals' - {p.gen} == wals - {p.gen};
    assert (wals[p.gen].records + [p.todo[0]]) + p.todo[1..] == wals[p.gen].records + p.todo;
  }

  lemma CheckpointSyncBooks(s: State, n: nat)
    requires s.phase.Checkpointing? && Booked(s)
    requires s.disk.wals[s.phase.gen].durable <= n <= |s.disk.wals[s.phase.gen].records|
    ensures Booked(DoReachDevice(s, n))
  {
    hide Enumerates, Holdable;
    var g := s.phase.gen;
    var wals: map<nat, Wal>, wals': map<nat, Wal> := s.disk.wals, DoReachDevice(s, n).disk.wals;
    assert wals' - {g} == wals - {g};
  }

  /** Once the checkpoint is complete and synced, its segment says what the memtable holds. */
  lemma CheckpointDoneBooks(s: State)
    requires s.phase.Checkpointing? && Booked(s) && Enabled(s, CheckpointDone)
    ensures Booked(DoCheckpointDone(s))
  {
    hide Enumerates, Holdable, LogLayer;
    var p, wals := s.phase, s.disk.wals;
    assert wals[p.gen].records + [] == wals[p.gen].records;
    EnumeratedLayer(wals[p.gen].records, p.memtable);
    forall g | g in wals ensures wals[g].durable == |wals[g].records| {
      if g != p.gen {
        assert g in wals - {p.gen};
      }
    }
  }

  /** Writing to the checkpoint's segment does not touch the others. */
  lemma CheckpointWritesHold(s: State, s': State, k: Key)
    requires s.phase.Checkpointing? && s'.phase.Checkpointing? && HeldAt(s, k)
    requires s'.phase == s.phase.(todo := s'.phase.todo) && s'.hist == s.hist
    requires s'.disk.wals - {s.phase.gen} == s.disk.wals - {s.phase.gen}
    ensures HeldAt(s', k)
  {
    hide Replay, Base, Spec;
  }

  /** ... so that the old segments add nothing to it. */
  lemma CheckpointDoneHolds(s: State, k: Key)
    requires s.phase.Checkpointing? && Booked(s) && Enabled(s, CheckpointDone) && HeldAt(s, k)
    ensures HeldAt(DoCheckpointDone(s), k)
  {
    hide Enumerates, Holdable, LogLayer, Replay, Base, Spec;
    var p, wals := s.phase, s.disk.wals;
    assert wals[p.gen].records + [] == wals[p.gen].records;
    EnumeratedLayer(wals[p.gen].records, p.memtable);
    forall g | g in wals && k in LogLayer(wals[g].records) ensures k in p.memtable {
      if g != p.gen {
        assert g in wals - {p.gen};
        ReplayContains(wals - {p.gen}, g);
      }
    }
  }

  lemma CheckpointForms(s: State, step: Step)
    requires Formed(s) && s.phase.Checkpointing? && Enabled(s, step) && !step.Crash?
    ensures Formed(Do(s, step))
  {
    hide Catalogued;
  }

  // ---- Deleting and starting -----------------------------------------------------------------------

  lemma DeletingForms(s: State, step: Step)
    requires Formed(s) && s.phase.Deleting? && Enabled(s, step) && !step.Crash?
    ensures Formed(Do(s, step))
  {
    hide Catalogued;
  }

  lemma DeleteSegmentBooks(s: State, g: nat)
    requires s.phase.Deleting? && Booked(s) && g in s.disk.wals && g != s.phase.gen
    ensures Booked(DoDeleteSegment(s, g))
  {
    hide LogLayer, Holdable;
  }

  lemma DeleteSegmentHolds(s: State, g: nat, k: Key)
    requires s.phase.Deleting? && HeldAt(s, k)
    ensures HeldAt(DoDeleteSegment(s, g), k)
  {
    hide LogLayer, Base, Spec;
  }

  lemma StartBooks(s: State)
    requires s.phase.Deleting? && Booked(s) && s.disk.wals.Keys == {s.phase.gen}
    ensures Booked(DoStart(s))
  {
    hide LogLayer, Holdable;
    var p, s' := s.phase, DoStart(s);
    var w := s.disk.wals[p.gen];
    assert Gens(s'.phase.e) == [p.gen];
    assert w.records[|w.records|..] == [] && s.hist[|s.hist|..] == [];
    assert s.disk.wals - {p.gen} == map[];
  }

  lemma StartHolds(s: State, k: Key)
    requires s.phase.Deleting? && Booked(s) && HeldAt(s, k)
    ensures HeldAt(DoStart(s), k)
  {
    hide LogLayer, Holdable, Base, Spec;
    var w := s.disk.wals[s.phase.gen];
    assert w.records[..|w.records|] == w.records && s.hist[..|s.hist|] == s.hist;
    assert On(FrozenLayer([]), k) == None;
  }
}
