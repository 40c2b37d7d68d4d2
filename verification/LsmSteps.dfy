/** Writes: what a locked write, a sync and a rotation do to the three parts of the invariant. */
module LsmSteps {
  import opened Bytes
  import opened Layers
  import opened Memtables
  import opened OneKey
  import opened Manifests
  import opened LsmStates
  import opened LsmInvariants

  // ---- Contents at every cut of the active segment -------------------------------------------------

  /** Two lists that agree from some point on agree on every stretch that starts there. */
  lemma SharedTail<T>(a: seq<T>, i: nat, b: seq<T>, j: nat, c: nat)
    requires i <= c <= |a| && j <= |b| && a[i..] == b[j..]
    ensures j + c - i <= |b|
    ensures a[..c] == a[..i] + a[i..c]
    ensures b[..j + c - i] == b[..j] + a[i..c]
  {
    assert |a[i..]| == |b[j..]|;
    assert a[i..c] == a[i..][..c - i];
    assert b[j..j + c - i] == b[j..][..c - i];
  }

  /** Whatever prefix of the active segment survives, at this key it stands for a prefix of the history. */
  lemma PrefixContents(s: State, e: Engine, c: nat, k: Key)
    requires Tailed(s, e) && RunningAt(s, e, k) && s.ckpt <= c <= |s.disk.wals[e.gen].records|
    ensures s.base + c - s.ckpt <= |s.hist|
    ensures Seen(Find(Base(e.ssts), k),
                 Over(On(FrozenLayer(e.frozen), k), On(LogLayer(s.disk.wals[e.gen].records[..c]), k)))
         == Find(Spec(map[], s.hist[..s.base + c - s.ckpt]), k)
  {
    hide LogLayer, Spec, FrozenLayer, Base, On, Seen, Find, FrozenAt;
    var records := s.disk.wals[e.gen].records;
    var below, frozen := Find(Base(e.ssts), k), On(FrozenLayer(e.frozen), k);
    var head, tail := On(LogLayer(records[..s.ckpt]), k), On(LogLayer(records[s.ckpt..c]), k);
    SharedTail(records, s.ckpt, s.hist, s.base, c);
    LogOver(records[..s.ckpt], records[s.ckpt..c], k);
    SeenOver(below, Over(frozen, head), tail);
    SpecOver(s.hist[..s.base], records[s.ckpt..c], k);
  }

  lemma CurrentContents(s: State, e: Engine, k: Key)
    requires Tailed(s, e) && RunningAt(s, e, k)
    ensures Seen(Find(Base(e.ssts), k),
                 Over(On(FrozenLayer(e.frozen), k), On(LogLayer(s.disk.wals[e.gen].records), k)))
         == Find(Contents(s), k)
  {
    hide LogLayer, Spec, FrozenLayer, Base, On, Seen, Find, RunningAt;
    var records := s.disk.wals[e.gen].records;
    TailLength(s, e);
    PrefixContents(s, e, |records|, k);
    assert records[..|records|] == records && s.hist[..|s.hist|] == s.hist;
  }

  // ---- The write as three smaller steps ------------------------------------------------------------

  /** append_to_wal and the memtable update. */
  function Append(s: State, w: Write): (r: State)
    requires IsRunning(s) && HasActiveWal(s)
  {
    var e := s.phase.e;
    var wal := s.disk.wals[e.gen];
    s.(disk := s.disk.(wals := s.disk.wals[e.gen := Wal(wal.records + [w], wal.durable)]),
       phase := Running(e.(memtable := Inserted(e.memtable, w.key, EntryOf(w)),
           writers := e.writers[|s.hist| := Appended(e.gen)])), hist := s.hist + [w])
  }

  /** rotate_memtable_if_needed, once the segment is synced. */
  function Rotate(s: State): (r: State)
    requires IsRunning(s)
  {
    var e := s.phase.e;
    s.(disk := s.disk.(wals := s.disk.wals[e.gen + 1 := Wal([], 0)]),
       phase := Running(e.(memtable := map[], frozen := e.frozen + [Frozen(e.memtable, e.gen)], gen := e.gen + 1)),
       base := |s.hist|, ckpt := 0)
  }

  /** The state that a rotation starts from. */
  function Synced(s: State): (r: State)
    requires IsRunning(s) && HasActiveWal(s)
  {
    DoReachDevice(s, |s.disk.wals[s.phase.e.gen].records|)
  }

  lemma WriteIsAppendSyncRotate(s: State, w: Write)
    requires IsRunning(s) && HasActiveWal(s)
    ensures var a := Append(s, w);
            DoWrite(s, w) == if |a.phase.e.memtable| < THRESHOLD then a else Rotate(Synced(a))
  {
  }

  /** The active segment is younger than every other. */
  lemma GensApart(e: Engine)
    requires Ascending(Gens(e))
    ensures forall i | 0 <= i < |e.frozen| :: e.frozen[i].gen < e.gen
    ensures e.flush.FlushPublished? ==> e.flush.gen < e.gen
    ensures e.flush.FlushPublished? ==> forall i | 0 <= i < |e.frozen| :: e.flush.gen < e.frozen[i].gen
  {
    var gens := Gens(e);
    var k := if e.flush.FlushPublished? then 1 else 0;
    assert gens[|gens| - 1] == e.gen;
    forall i | 0 <= i < |e.frozen| ensures gens[k + i] == e.frozen[i].gen {
      assert FrozenGens(e.frozen)[i] == e.frozen[i].gen;
    }
  }

  // ---- Bookkeeping ---------------------------------------------------------------------------------

  lemma SameGens(e: Engine, e': Engine)
    requires e'.frozen == e.frozen && e'.gen == e.gen && e'.flush == e.flush
    ensures Gens(e') == Gens(e)
  {
  }

  /** Only the active segment changes. */
  lemma SegmentedUpdate(wals: map<nat, Wal>, e: Engine, e': Engine, w: Wal)
    requires Segmented(wals, e) && e.gen in wals
    requires e'.frozen == e.frozen && e'.gen == e.gen && e'.flush == e.flush
    ensures Segmented(wals[e.gen := w], e')
  {
    hide Ascending, Gens;
    SameGens(e, e');
    assert wals[e.gen := w] - {e.gen} == wals - {e.gen};
  }

  lemma AppendBooks(s: State, w: Write)
    requires IsRunning(s) && Booked(s)
    ensures HasActiveWal(s) && Booked(Append(s, w))
  {
    hide Segmented, Holdable, Inserted;
    var e, s' := s.phase.e, Append(s, w);
    SegmentedUpdate(s.disk.wals, e, s'.phase.e, s'.disk.wals[e.gen]);
    InsertedHoldable(e.memtable, w.key, EntryOf(w));
    TailLength(s, e);
    AppendTailed(s, w);
    forall i | i in s'.phase.e.writers ensures WriterOk(s', s'.phase.e, i, s'.phase.e.writers[i]) {
      if i != |s.hist| {
        assert WriterOk(s, e, i, e.writers[i]);
      }
    }
  }

  lemma AppendTailed(s: State, w: Write)
    requires IsRunning(s) && Tailed(s, s.phase.e)
    ensures Tailed(Append(s, w), Append(s, w).phase.e)
  {
    hide Inserted;
    var records := s.disk.wals[s.phase.e.gen].records;
    assert (records + [w])[s.ckpt..] == records[s.ckpt..] + [w];
    assert (s.hist + [w])[s.base..] == s.hist[s.base..] + [w];
  }

  lemma SyncBooks(s: State, n: nat)
    requires IsRunning(s) && Booked(s) && HasActiveWal(s)
    requires s.disk.wals[s.phase.e.gen].durable <= n <= |s.disk.wals[s.phase.e.gen].records|
    ensures Booked(DoReachDevice(s, n))
  {
    hide Segmented, Holdable;
    var e, s' := s.phase.e, DoReachDevice(s, n);
    SegmentedUpdate(s.disk.wals, e, e, s'.disk.wals[e.gen]);
    forall i | i in e.writers ensures WriterOk(s', e, i, e.writers[i]) {
      assert WriterOk(s, e, i, e.writers[i]);
    }
  }

  ghost predicate Rotatable(s: State) {
    && IsRunning(s) && Booked(s) && HasActiveWal(s)
    && s.disk.wals[s.phase.e.gen].durable == |s.disk.wals[s.phase.e.gen].records|
  }

  lemma RotateSegmented(wals: map<nat, Wal>, e: Engine, e': Engine)
    requires Segmented(wals, e) && e.gen in wals && wals[e.gen].durable == |wals[e.gen].records|
    requires e' == e.(memtable := map[], frozen := e.frozen + [Frozen(e.memtable, e.gen)], gen := e.gen + 1)
    ensures Segmented(wals[e.gen + 1 := Wal([], 0)], e') && e.gen + 1 !in wals
  {
    hide Ascending, Covers, AllDurable;
    RotateSegments(wals, e);
    RotateDurable(wals, e);
  }

  lemma RotateSegments(wals: map<nat, Wal>, e: Engine)
    requires Ascending(Gens(e)) && Covers(Gens(e), wals)
    ensures var e' := e.(memtable := map[], frozen := e.frozen + [Frozen(e.memtable, e.gen)], gen := e.gen + 1);
            Ascending(Gens(e')) && Covers(Gens(e'), wals[e.gen + 1 := Wal([], 0)])
    ensures e.gen + 1 !in wals
  {
    RotateGens(e);
    TopOfList(wals, Gens(e));
    assert Gens(e)[|Gens(e)| - 1] == e.gen;
    GensExtend(wals, Gens(e), e.gen + 1, Wal([], 0));
  }

  lemma RotateDurable(wals: map<nat, Wal>, e: Engine)
    requires e.gen in wals && e.gen + 1 !in wals
    requires AllDurable(wals - {e.gen}) && wals[e.gen].durable == |wals[e.gen].records|
    ensures AllDurable(wals[e.gen + 1 := Wal([], 0)] - {e.gen + 1})
  {
    assert wals[e.gen + 1 := Wal([], 0)] - {e.gen + 1} == wals;
    forall g | g in wals ensures wals[g].durable == |wals[g].records| {
      assert g == e.gen || g in wals - {e.gen};
    }
  }

  lemma RotateGens(e: Engine)
    ensures Gens(e.(memtable := map[], frozen := e.frozen + [Frozen(e.memtable, e.gen)], gen := e.gen + 1))
         == Gens(e) + [e.gen + 1]
  {
    FrozenSnoc(e.frozen, Frozen(e.memtable, e.gen));
    hide FrozenGens, FrozenLayer;
    var front: seq<nat>, frozen := if e.flush.FlushPublished? then [e.flush.gen] else [], FrozenGens(e.frozen);
    assert front + (frozen + [e.gen]) + [e.gen + 1] == (front + frozen + [e.gen]) + [e.gen + 1];
  }

  lemma GensExtend(wals: map<nat, Wal>, gens: seq<nat>, g: nat, w: Wal)
    requires Ascending(gens) && Covers(gens, wals)
    requires forall x | x in wals :: x < g
    ensures Ascending(gens + [g]) && Covers(gens + [g], wals[g := w])
  {
    forall x | x in wals[g := w] ensures x in gens + [g] {
    }
  }

  lemma RotateBooks(s: State)
    requires Rotatable(s)
    ensures Booked(Rotate(s))
  {
    hide Segmented;
    var e, s' := s.phase.e, Rotate(s);
    RotateSegmented(s.disk.wals, e, s'.phase.e);
    TailLength(s, e);
    forall i | i in e.writers ensures WriterOk(s', s'.phase.e, i, e.writers[i]) {
      assert WriterOk(s, e, i, e.writers[i]);
    }
  }

  lemma WriteBooks(s: State, w: Write)
    requires IsRunning(s) && Booked(s) && HasActiveWal(s)
    ensures Booked(DoWrite(s, w))
  {
    hide Booked, Append, Rotate, DoWrite;
    WriteIsAppendSyncRotate(s, w);
    AppendBooks(s, w);
    AppendRuns(s, w);
    var a := Append(s, w);
    if |a.phase.e.memtable| >= THRESHOLD {
      SyncedIs(a);
      SyncBooks(a, |a.disk.wals[a.phase.e.gen].records|);
      RotateBooks(Synced(a));
    }
  }

  lemma AppendRuns(s: State, w: Write)
    requires IsRunning(s) && HasActiveWal(s)
    ensures IsRunning(Append(s, w)) && HasActiveWal(Append(s, w))
  {
  }

  lemma SyncedIs(s: State)
    requires IsRunning(s) && HasActiveWal(s) && Booked(s)
    ensures var n := |s.disk.wals[s.phase.e.gen].records|;
            && s.disk.wals[s.phase.e.gen].durable <= n
            && IsRunning(Synced(s)) && HasActiveWal(Synced(s))
            && var w := Synced(s).disk.wals[Synced(s).phase.e.gen]; w.durable == |w.records|
  {
    hide Segmented, Acknowledged;
  }

  // ---- What is held at a key -----------------------------------------------------------------------

  lemma FrozenUpdate(frozen: seq<Frozen>, wals: map<nat, Wal>, g: nat, w: Wal, k: Key)
    requires FrozenAt(frozen, wals, k) && forall i | 0 <= i < |frozen| :: frozen[i].gen < g
    ensures FrozenAt(frozen, wals[g := w], k)
  {
  }

  lemma GensBelow(s: State)
    requires IsRunning(s) && Booked(s)
    ensures var e := s.phase.e;
            && e.gen in s.disk.wals && (forall i | 0 <= i < |e.frozen| :: e.frozen[i].gen < e.gen)
            && (e.flush.FlushPublished? ==> e.flush.gen < e.gen)
  {
    hide Covers, AllDurable, Acknowledged, Holdable;
    GensApart(s.phase.e);
  }

  /** The record and the memtable's entry come together, or the step has no room for the key. */
  lemma AppendHolds(s: State, w: Write, k: Key)
    requires IsRunning(s) && Booked(s) && HasActiveWal(s) && HeldAt(s, k)
    requires w.key == k ==> Takes(s.phase.e.memtable, k)
    ensures HeldAt(Append(s, w), k)
  {
    hide LogLayer, Spec, Base, Seen, Booked;
    GensBelow(s);
    var e, s' := s.phase.e, Append(s, w);
    var records := s.disk.wals[e.gen].records;
    LogOneMore(records, w, k);
    FrozenUpdate(e.frozen, s.disk.wals, e.gen, s'.disk.wals[e.gen], k);
    assert (records + [w])[..s.ckpt] == records[..s.ckpt] && (s.hist + [w])[..s.base] == s.hist[..s.base];
  }

  lemma SyncHolds(s: State, n: nat, k: Key)
    requires IsRunning(s) && Booked(s) && HasActiveWal(s) && HeldAt(s, k)
    ensures HeldAt(DoReachDevice(s, n), k)
  {
    hide LogLayer, Spec, Base, Seen, Booked;
    GensBelow(s);
    var e := s.phase.e;
    FrozenUpdate(e.frozen, s.disk.wals, e.gen, s.disk.wals[e.gen].(durable := n), k);
  }

  lemma FrozenExtend(wals: map<nat, Wal>, frozen: seq<Frozen>, f: Frozen, g: nat, w: Wal, k: Key)
    requires FrozenAt(frozen, wals, k) && f.gen in wals && On(f.table, k) == On(LogLayer(wals[f.gen].records), k)
    requires g !in wals
    ensures FrozenAt(frozen + [f], wals[g := w], k)
  {
    hide LogLayer;
  }

  lemma RotateFresh(s: State)
    requires Rotatable(s)
    ensures s.phase.e.gen in s.disk.wals && s.phase.e.gen + 1 !in s.disk.wals && Tailed(s, s.phase.e)
  {
    hide AllDurable, Acknowledged, Holdable, Ascending, Covers, Gens;
    RotateSegments(s.disk.wals, s.phase.e);
  }

  lemma RotateHolds(s: State, k: Key)
    requires Rotatable(s) && HeldAt(s, k)
    ensures HeldAt(Rotate(s), k)
  {
    hide LogLayer, Spec, Base, Seen, Booked, FrozenLayer, FrozenAt, Find, Tailed;
    RotateFresh(s);
    var e := s.phase.e;
    var f := Frozen(e.memtable, e.gen);
    CurrentContents(s, e, k);
    FrozenSnoc(e.frozen, f);
    OnMerge(FrozenLayer(e.frozen), e.memtable, k);
    FrozenExtend(s.disk.wals, e.frozen, f, e.gen + 1, Wal([], 0), k);
    NoRecord(k);
    AtTheEnd(s.hist);
    var none: seq<Write> := [];
    assert none[..0] == [];
  }

  lemma AtTheEnd<T>(s: seq<T>)
    ensures s[..|s|] == s && s[|s|..] == []
  {
  }

  lemma WriteHolds(s: State, w: Write, k: Key)
    requires IsRunning(s) && Booked(s) && HasActiveWal(s) && HeldAt(s, k)
    requires w.key == k ==> Takes(s.phase.e.memtable, k)
    ensures HeldAt(DoWrite(s, w), k)
  {
    hide Booked, Append, Rotate, DoWrite, HeldAt, Takes;
    WriteIsAppendSyncRotate(s, w);
    AppendBooks(s, w);
    AppendHolds(s, w, k);
    AppendRuns(s, w);
    var a := Append(s, w);
    if |a.phase.e.memtable| >= THRESHOLD {
      SyncedIs(a);
      SyncBooks(a, |a.disk.wals[a.phase.e.gen].records|);
      SyncHolds(a, |a.disk.wals[a.phase.e.gen].records|, k);
      RotateHolds(Synced(a), k);
    }
  }

  /** The log has the record, and neither the memtable nor the frozen one has its key. */
  lemma IgnoredBreaks(s: State, w: Write)
    requires IsRunning(s) && Booked(s) && HasActiveWal(s) && !Takes(s.phase.e.memtable, w.key)
    ensures !HeldAt(DoWrite(s, w), w.key)
  {
    hide Segmented, Acknowledged, Base, LogLayer, Spec, Seen, FrozenLayer;
    var e, s' := s.phase.e, DoWrite(s, w);
    LogOneMore(s.disk.wals[e.gen].records, w, w.key);
    assert w.key !in e.memtable;
    assert |e.memtable| >= THRESHOLD ==> s'.phase.e.frozen[|e.frozen|] == Frozen(e.memtable, e.gen);
  }

  // ---- The threads beside a write ------------------------------------------------------------------

  /** The background threads do not look at the log or the memtable. */
  lemma SameThreads(files: map<Path, Sst>, e: Engine, e': Engine)
    requires FlushOk(files, e) && CompactOk(files, e)
    requires e'.manifest == e.manifest && e'.ssts == e.ssts && e'.flush == e.flush && e'.compact == e.compact
    requires e.frozen != [] ==> e'.frozen != [] && e'.frozen[0] == e.frozen[0]
    ensures FlushOk(files, e') && CompactOk(files, e')
  {
    match e.compact
    case CompactIdle =>
    case CompactPublished(obsolete) =>
      forall i | 0 <= i < |obsolete| ensures Obsolete(e', obsolete[i]) { assert Obsolete(e, obsolete[i]); }
    case CompactMerging(inputs, metas, complete, n) =>
      var i: nat :| RunAt(e, inputs, metas, complete, i);
      assert RunAt(e', inputs, metas, complete, i);
    case CompactWritten(inputs, metas, complete, n, sst) =>
      var i: nat :| RunAt(e, inputs, metas, complete, i);
      assert RunAt(e', inputs, metas, complete, i);
  }

  lemma WriteShapes(s: State, w: Write)
    requires Shaped(s) && HasActiveWal(s)
    ensures Shaped(DoWrite(s, w))
  {
    hide Catalogued, FlushOk, CompactOk, Inserted;
    SameThreads(s.disk.files, s.phase.e, DoWrite(s, w).phase.e);
  }

  lemma SyncShapes(s: State, n: nat)
    requires Shaped(s) && HasActiveWal(s)
    ensures Shaped(DoReachDevice(s, n))
  {
    hide Catalogued, FlushOk, CompactOk;
  }

  // ---- What get sees of a write --------------------------------------------------------------------

  /** The write, if the memtable takes it, and nothing else. */
  lemma WriteIsSeen(s: State, w: Write, k: Key)
    requires IsRunning(s) && HasActiveWal(s)
    ensures GetLocked(DoWrite(s, w).phase.e, k)
         == if k == w.key && Takes(s.phase.e.memtable, k) then Seen(None, Some(EntryOf(w)))
            else GetLocked(s.phase.e, k)
  {
    var e, e' := s.phase.e, DoWrite(s, w).phase.e;
    var table := Inserted(e.memtable, w.key, EntryOf(w));
    assert On(table, k) == if k == w.key && Takes(e.memtable, k) then Some(EntryOf(w)) else On(e.memtable, k);
    hide GetLocked, Takes, Base, FrozenLayer, Inserted;
    GetSees(e, k);
    GetSees(e', k);
    FrozenSnoc(e.frozen, Frozen(table, e.gen));
    OnMerge(FrozenLayer(e.frozen), table, k);
  }
}
