/** Commits and flushes: what they do to the three parts of the invariant. */
module LsmThreads {
  import opened Layers
  import opened Memtables
  import opened OneKey
  import opened Manifests
  import opened LsmStates
  import opened LsmInvariants
  import opened LsmSteps

  // ---- Framing -------------------------------------------------------------------------------------

  /** Same logs, same memtables, same store below them: only the threads have moved. */
  ghost predicate SameData(s: State, s': State) {
    && IsRunning(s) && IsRunning(s')
    && s'.disk.wals == s.disk.wals && s'.hist == s.hist && s'.base == s.base && s'.ckpt == s.ckpt
    && var e, e' := s.phase.e, s'.phase.e;
    && e'.memtable == e.memtable && e'.frozen == e.frozen && e'.gen == e.gen
    && Base(e'.ssts) == Base(e.ssts)
    && (e'.flush == e.flush || !(e'.flush.FlushPublished? || e.flush.FlushPublished?))
  }

  lemma SameDataBooks(s: State, s': State)
    requires SameData(s, s') && Booked(s)
    requires s'.phase.e.writers == s.phase.e.writers && s'.acked == s.acked
    ensures Booked(s')
  {
    hide Ascending, Covers, AllDurable, Base, Holdable;
    assert Gens(s'.phase.e) == Gens(s.phase.e);
    forall i | i in s'.phase.e.writers ensures WriterOk(s', s'.phase.e, i, s'.phase.e.writers[i]) {
      assert WriterOk(s, s.phase.e, i, s.phase.e.writers[i]);
    }
  }

  lemma SameDataHolds(s: State, s': State, k: Key)
    requires SameData(s, s') && HeldAt(s, k)
    ensures HeldAt(s', k)
  {
    hide Base, LogLayer, Spec, FrozenLayer;
  }

  lemma SameDataIsUnseen(s: State, s': State, k: Key)
    requires SameData(s, s')
    ensures GetLocked(s'.phase.e, k) == GetLocked(s.phase.e, k)
  {
    hide Base, GetLocked, FrozenLayer;
    GetSees(s.phase.e, k);
    GetSees(s'.phase.e, k);
  }

  lemma {:induction false} FilesIgnoreNext(m: Manifest, n: nat, levels: seq<nat>)
    ensures FilesOf(m.(next := n), levels) == FilesOf(m, levels)
  {
    if levels != [] {
      FilesIgnoreNext(m, n, levels[1..]);
    }
  }

  /** Allocating a sequence number leaves the catalogue alone. */
  lemma SoundNext(m: Manifest, n: nat)
    requires Sound(m) && m.next <= n
    ensures Sound(m.(next := n)) && Order(m.(next := n)) == Order(m)
  {
    FilesIgnoreNext(m, n, seq(LEVELS, i => i));
  }

  lemma CataloguedNext(saved: Manifest, files: map<Path, Sst>, m: Manifest, ssts: seq<Sst>, n: nat)
    requires Catalogued(saved, files, m, ssts) && m.next <= n
    ensures Catalogued(saved, files, m.(next := n), ssts) && Order(m.(next := n)) == Order(m)
  {
    SoundNext(m, n);
  }

  lemma UnusedFile(saved: Manifest, files: map<Path, Sst>, m: Manifest, ssts: seq<Sst>, p: Path, sst: Sst)
    requires Catalogued(saved, files, m, ssts) && FreshPath(Order(m), p)
    ensures Catalogued(saved, files[p := sst], m, ssts) && Catalogued(saved, files - {p}, m, ssts)
  {
    assert Opened(Order(m), files[p := sst]) == Opened(Order(m), files);
    assert Opened(Order(m), files - {p}) == Opened(Order(m), files);
  }

  /** The compaction thread's own facts survive while its inputs stay put and its output stays on disk. */
  lemma SameCompaction(files: map<Path, Sst>, files': map<Path, Sst>, e: Engine, e': Engine)
    requires CompactOk(files, e)
    requires e'.compact == e.compact && e'.ssts == e.ssts
    requires Order(e'.manifest) == Order(e.manifest) && e.manifest.next <= e'.manifest.next
    requires e.compact.CompactWritten? ==> e.compact.sst.path in files' && files'[e.compact.sst.path] == e.compact.sst
    requires NotObsolete(e, e')
    ensures CompactOk(files', e')
  {
    match e.compact
    case CompactIdle =>
    case CompactPublished(obsolete) =>
      forall i | 0 <= i < |obsolete| ensures Obsolete(e', obsolete[i]) { assert Obsolete(e, obsolete[i]); }
    case CompactMerging(inputs, metas, complete, n) =>
      var i: nat :| RunAt(e, inputs, metas, complete, i);
      assert RunAt(e', inputs, metas, complete, i);
    case CompactWritten(inputs, metas, complete, n, sst) =>
      var i: nat :| RunAt(e, inputs, metas, complete, i);
      assert RunAt(e', inputs, metas, complete, i);
  }

  /** The flush thread's number, if it holds one, is the one it held or a new one. */
  ghost predicate NotObsolete(e: Engine, e': Engine) {
    || !(e'.flush.FlushNumbered? || e'.flush.FlushWritten?)
    || e'.flush.number == e.manifest.next
    || ((e.flush.FlushNumbered? || e.flush.FlushWritten?) && e'.flush.number == e.flush.number)
  }

  // ---- Commits -------------------------------------------------------------------------------------

  lemma CommitCallBooks(s: State, i: nat)
    requires IsRunning(s) && Booked(s) && i in s.phase.e.writers && WalOf(s, s.phase.e.writers[i].gen).Some?
    ensures Booked(DoCommitCall(s, i))
  {
    hide Ascending, Covers, AllDurable, Holdable;
    var e, s' := s.phase.e, DoCommitCall(s, i);
    assert Gens(s'.phase.e) == Gens(e);
    TailLength(s, e);
    forall j | j in s'.phase.e.writers ensures WriterOk(s', s'.phase.e, j, s'.phase.e.writers[j]) {
      assert WriterOk(s, e, j, e.writers[j]);
    }
  }

  lemma CommitCallShapes(s: State, i: nat)
    requires Shaped(s) && i in s.phase.e.writers && WalOf(s, s.phase.e.writers[i].gen).Some?
    ensures Shaped(DoCommitCall(s, i))
  {
    hide Catalogued, FlushOk, CompactOk;
    SameThreads(s.disk.files, s.phase.e, DoCommitCall(s, i).phase.e);
  }

  lemma CommitReturnShapes(s: State, i: nat)
    requires Shaped(s)
    ensures Shaped(DoCommitReturn(s, i))
  {
    hide Catalogued, FlushOk, CompactOk;
    SameThreads(s.disk.files, s.phase.e, DoCommitReturn(s, i).phase.e);
  }

  /** A commit returns only when its record is on the device, so everything acknowledged is. */
  lemma CommitReturnBooks(s: State, i: nat)
    requires IsRunning(s) && Booked(s) && Enabled(s, CommitReturn(i))
    ensures Booked(DoCommitReturn(s, i))
  {
    hide Ascending, Covers, AllDurable, Holdable;
    var e, s' := s.phase.e, DoCommitReturn(s, i);
    assert Gens(s'.phase.e) == Gens(e);
    assert WriterOk(s, e, i, e.writers[i]);
    forall j | j in s'.phase.e.writers ensures WriterOk(s', s'.phase.e, j, s'.phase.e.writers[j]) {
      assert WriterOk(s, e, j, e.writers[j]);
    }
  }

  // ---- Flush ---------------------------------------------------------------------------------------

  lemma FlushPickShapes(s: State)
    requires Shaped(s) && s.phase.e.flush.FlushIdle? && s.phase.e.frozen != []
    ensures Shaped(DoFlushPick(s))
  {
    hide Catalogued, CompactOk;
    WrittenIsKnown(s);
    SameCompaction(s.disk.files, s.disk.files, s.phase.e, DoFlushPick(s).phase.e);
  }

  lemma FlushIdleShapes(s: State)
    requires Shaped(s) && !s.phase.e.flush.FlushPublished?
    ensures Shaped(DoFlushIdle(s))
  {
    hide Catalogued, CompactOk;
    WrittenIsKnown(s);
    SameCompaction(s.disk.files, s.disk.files, s.phase.e, DoFlushIdle(s).phase.e);
  }

  lemma FreshNumber(e: Engine)
    requires Sound(e.manifest) && e.flush.FlushPicked? && e.frozen != [] && e.frozen[0] == e.flush.f
    ensures Numbered(e.(manifest := e.manifest.(next := e.manifest.next + 1),
                        flush := FlushNumbered(e.flush.f, e.manifest.next)), e.flush.f, e.manifest.next)
  {
    SoundNext(e.manifest, e.manifest.next + 1);
  }

  lemma NumberFacts(s: State)
    requires Shaped(s) && s.phase.e.flush.FlushPicked?
    ensures var s' := DoFlushNumber(s);
            && Catalogued(s'.disk.manifest, s'.disk.files, s'.phase.e.manifest, s'.phase.e.ssts)
            && Order(s'.phase.e.manifest) == Order(s.phase.e.manifest)
            && FlushOk(s'.disk.files, s'.phase.e)
  {
    hide CompactOk, Numbered, Order;
    var e := s.phase.e;
    FreshNumber(e);
    CataloguedNext(s.disk.manifest, s.disk.files, e.manifest, e.ssts, e.manifest.next + 1);
  }

  lemma FlushNumberShapes(s: State)
    requires Shaped(s) && s.phase.e.flush.FlushPicked?
    ensures Shaped(DoFlushNumber(s))
  {
    hide Catalogued, CompactOk, FlushOk, Order;
    NumberFacts(s);
    WrittenIsKnown(s);
    SameCompaction(s.disk.files, s.disk.files, s.phase.e, DoFlushNumber(s).phase.e);
  }

  lemma FlushWriteShapes(s: State, size: nat)
    requires Shaped(s) && s.phase.e.flush.FlushNumbered?
    ensures Shaped(DoFlushWrite(s, size))
  {
    var e, s' := s.phase.e, DoFlushWrite(s, size);
    WrittenIsKnown(s);
    hide Catalogued, CompactOk, Order;
    UnusedFile(s.disk.manifest, s.disk.files, e.manifest, e.ssts, Flushed(e.flush.number), s'.phase.e.flush.sst);
    SameCompaction(s.disk.files, s'.disk.files, e, s'.phase.e);
  }

  /** The compaction output is on disk under a compaction name. */
  lemma WrittenIsKnown(s: State)
    requires Shaped(s)
    ensures s.phase.e.compact.CompactWritten? ==>
              && s.phase.e.compact.sst.path == Compacted(s.phase.e.compact.number)
              && s.phase.e.compact.sst.path in s.disk.files
              && s.disk.files[s.phase.e.compact.sst.path] == s.phase.e.compact.sst
  {
    hide Catalogued, FlushOk;
  }

  lemma AddThenRemoveSound(m: Manifest, x: Meta)
    requires Sound(m) && x.level < LEVELS && FreshPath(Order(m), x.path)
    ensures var m' := RemoveFile(AddFile(m, x.level, x), x.level, x.path);
            Sound(m') && Order(m') == Order(m) && m'.next == m.next
  {
    OrderFiles(m);
    forall y | y in multiset(AllFiles(m)) ensures y.path != x.path {
      assert y in multiset(Order(m));
      assert y in Order(m);
    }
    AddThenRemove(m, x);
    SameFilesSameOrder(m, RemoveFile(AddFile(m, x.level, x), x.level, x.path));
  }

  lemma CataloguedSame(saved: Manifest, files: map<Path, Sst>, m: Manifest, m': Manifest, ssts: seq<Sst>)
    requires Catalogued(saved, files, m, ssts)
    requires Sound(m') && Order(m') == Order(m) && m'.next == m.next
    ensures Catalogued(saved, files, m', ssts) && Catalogued(m', files, m', ssts)
  {
  }

  lemma FlushPublishFailsShapes(s: State)
    requires Shaped(s) && s.phase.e.flush.FlushWritten?
    ensures Shaped(DoFlushPublishFails(s))
  {
    var e, s' := s.phase.e, DoFlushPublishFails(s);
    var x := Meta(e.flush.sst.path, 0, e.flush.number);
    WrittenIsKnown(s);
    hide CompactOk, Order, Sound;
    AddThenRemoveSound(e.manifest, x);
    UnusedFile(s.disk.manifest, s.disk.files, e.manifest, e.ssts, x.path, e.flush.sst);
    hide Catalogued;
    CataloguedSame(s.disk.manifest, s'.disk.files, e.manifest, s'.phase.e.manifest, e.ssts);
    SameCompaction(s.disk.files, s'.disk.files, e, s'.phase.e);
  }

  lemma BasePush(sst: Sst, ssts: seq<Sst>)
    ensures Base([sst] + ssts) == Apply(Base(ssts), sst.entries)
  {
    assert ([sst] + ssts)[1..] == ssts;
    assert SstLayers([sst] + ssts) == [sst.entries] + SstLayers(ssts);
    assert ([sst.entries] + SstLayers(ssts))[1..] == SstLayers(ssts);
    ApplyMerge(map[], Stack(SstLayers(ssts)), sst.entries);
  }

  ghost predicate Publishable(s: State) {
    IsRunning(s) && Shaped(s) && s.phase.e.flush.FlushWritten? && s.phase.e.frozen != []
  }

  /** What the flush thread knows about the file it is about to publish. */
  lemma PublishFacts(s: State)
    requires Publishable(s)
    ensures s.phase.e.frozen[0] == s.phase.e.flush.f
    ensures s.phase.e.flush.sst.entries == s.phase.e.flush.f.table
    ensures s.phase.e.flush.sst.path == Flushed(s.phase.e.flush.number)
  {
    hide Catalogued, CompactOk;
  }

  lemma PublishGens(e: Engine, e': Engine)
    requires e.frozen != [] && e'.frozen == e.frozen[1..] && e'.gen == e.gen
    requires !e.flush.FlushPublished? && e'.flush == FlushPublished(e.frozen[0].gen)
    ensures Gens(e') == Gens(e)
  {
  }

  lemma FlushPublishBooks(s: State)
    requires Publishable(s) && Booked(s)
    ensures Booked(DoFlushPublish(s))
  {
    hide Shaped, Ascending, Covers, AllDurable, Holdable, Gens;
    PublishFacts(s);
    var e, s' := s.phase.e, DoFlushPublish(s);
    PublishGens(e, s'.phase.e);
    forall i | i in e.writers ensures WriterOk(s', s'.phase.e, i, e.writers[i]) {
      assert WriterOk(s, e, i, e.writers[i]);
    }
  }

  /** A file in front of the others, at one key. */
  lemma SeenInFront(sst: Sst, ssts: seq<Sst>, k: Key)
    ensures Find(Base([sst] + ssts), k) == Seen(Find(Base(ssts), k), On(sst.entries, k))
  {
    hide Base, Find, Apply;
    BasePush(sst, ssts);
    SeenApplied(Base(ssts), sst.entries, k);
  }

  lemma FrozenFirst(frozen: seq<Frozen>, k: Key)
    requires frozen != []
    ensures On(FrozenLayer(frozen), k) == Over(On(frozen[0].table, k), On(FrozenLayer(frozen[1..]), k))
  {
    OnMerge(frozen[0].table, FrozenLayer(frozen[1..]), k);
  }

  /** Moving the oldest frozen memtable under the others does not change what lies on top of it. */
  lemma FlushPublishHolds(s: State, k: Key)
    requires Publishable(s) && HeldAt(s, k)
    ensures HeldAt(DoFlushPublish(s), k)
  {
    hide Shaped, Base, LogLayer, Spec, FrozenLayer, On, Find;
    PublishFacts(s);
    var e, e' := s.phase.e, DoFlushPublish(s).phase.e;
    SeenInFront(e.flush.sst, e.ssts, k);
    FrozenFirst(e.frozen, k);
    assert FrozenAt(e'.frozen, s.disk.wals, k);
  }

  lemma FlushPublishIsUnseen(s: State, k: Key)
    requires Publishable(s)
    ensures GetLocked(DoFlushPublish(s).phase.e, k) == GetLocked(s.phase.e, k)
  {
    hide Shaped, Base, FrozenLayer, On, Find, GetLocked;
    PublishFacts(s);
    var e, e' := s.phase.e, DoFlushPublish(s).phase.e;
    GetSees(e, k);
    GetSees(e', k);
    SeenInFront(e.flush.sst, e.ssts, k);
    FrozenFirst(e.frozen, k);
  }

  lemma PublishCatalogued(s: State)
    requires Publishable(s)
    ensures var s' := DoFlushPublish(s);
            Catalogued(s'.disk.manifest, s'.disk.files, s'.phase.e.manifest, s'.phase.e.ssts)
    ensures Order(DoFlushPublish(s).phase.e.manifest)
         == [Meta(Flushed(s.phase.e.flush.number), 0, s.phase.e.flush.number)] + Order(s.phase.e.manifest)
  {
    hide CompactOk, Order;
    var e := s.phase.e;
    var x := Meta(e.flush.sst.path, 0, e.flush.number);
    var o := [x] + Order(e.manifest);
    assert GoodOrder(o, e.manifest.next);
    PublishFlush(e.manifest, x);
    assert AllPresent(o, s.disk.files);
    assert Opened(o, s.disk.files) == [e.flush.sst] + e.ssts;
  }

  lemma MergingMoves(e: Engine, e': Engine, x: Meta, sst: Sst, inputs: seq<Sst>, metas: seq<Meta>, complete: bool,
      n: nat)
    requires Merging(e, inputs, metas, complete, n) && x.path.Flushed?
    requires e'.ssts == [sst] + e.ssts && Order(e'.manifest) == [x] + Order(e.manifest)
    requires e'.manifest.next == e.manifest.next
    ensures Merging(e', inputs, metas, complete, n)
  {
    hide Order;
    var i: nat :| RunAt(e, inputs, metas, complete, i);
    OneFurther(sst, e.ssts, i);
    OneFurther(x, Order(e.manifest), i);
    assert RunAt(e', inputs, metas, complete, i + 1);
  }

  lemma OneFurther<T>(x: T, s: seq<T>, i: nat)
    requires i + FANOUT <= |s|
    ensures ([x] + s)[i + 1..i + 1 + FANOUT] == s[i..i + FANOUT]
  {
  }

  /** The run being compacted moves one place down when a newer file is published in front. */
  lemma PushKeepsRun(e: Engine, e': Engine, x: Meta, sst: Sst, files: map<Path, Sst>)
    requires CompactOk(files, e) && e'.compact == e.compact && x.path.Flushed?
    requires e'.ssts == [sst] + e.ssts && Order(e'.manifest) == [x] + Order(e.manifest)
    requires e'.manifest.next == e.manifest.next
    requires e.flush.FlushWritten? && x.path == Flushed(e.flush.number) && e'.flush.FlushPublished?
    ensures CompactOk(files, e')
  {
    hide Order;
    match e.compact
    case CompactIdle =>
    case CompactPublished(obsolete) =>
      forall i | 0 <= i < |obsolete| ensures Obsolete(e', obsolete[i]) { assert Obsolete(e, obsolete[i]); }
    case CompactMerging(inputs, metas, complete, n) =>
      MergingMoves(e, e', x, sst, inputs, metas, complete, n);
    case CompactWritten(inputs, metas, complete, n, _) =>
      MergingMoves(e, e', x, sst, inputs, metas, complete, n);
  }

  lemma PublishCompacting(s: State)
    requires Publishable(s)
    ensures CompactOk(s.disk.files, DoFlushPublish(s).phase.e)
  {
    PublishCatalogued(s);
    PublishFacts(s);
    hide Catalogued, CompactOk, FlushOk, Order;
    var e, e' := s.phase.e, DoFlushPublish(s).phase.e;
    PushKeepsRun(e, e', Meta(Flushed(e.flush.number), 0, e.flush.number), e.flush.sst, s.disk.files);
  }

  lemma FlushPublishShapes(s: State)
    requires Publishable(s)
    ensures Shaped(DoFlushPublish(s))
  {
    hide Catalogued, CompactOk;
    PublishCatalogued(s);
    PublishCompacting(s);
  }

  lemma FlushUnlinkShapes(s: State)
    requires Shaped(s) && s.phase.e.flush.FlushPublished? && s.phase.e.flush.gen in s.disk.wals
    ensures Shaped(DoFlushUnlink(s))
  {
    hide Catalogued, CompactOk;
    WrittenIsKnown(s);
    SameCompaction(s.disk.files, s.disk.files, s.phase.e, DoFlushUnlink(s).phase.e);
  }

  ghost predicate Unlinkable(s: State) {
    IsRunning(s) && Booked(s) && s.phase.e.flush.FlushPublished? && s.phase.e.flush.gen in s.disk.wals
  }

  lemma DropFirst(wals: map<nat, Wal>, g: nat, gens: seq<nat>)
    requires Ascending([g] + gens) && Covers([g] + gens, wals)
    ensures Ascending(gens) && Covers(gens, wals - {g})
  {
    var all := [g] + gens;
    forall i, j | 0 <= i < j < |gens| ensures gens[i] < gens[j] {
      assert all[i + 1] == gens[i] && all[j + 1] == gens[j];
    }
    forall i | 0 <= i < |gens| ensures gens[i] in wals - {g} {
      assert all[i + 1] == gens[i] && all[0] == g;
    }
    forall x | x in wals - {g} ensures x in gens {
      var i :| 0 <= i < |all| && all[i] == x;
      assert gens[i - 1] == x;
    }
  }

  lemma UnlinkSegmented(wals: map<nat, Wal>, e: Engine, e': Engine)
    requires Segmented(wals, e) && e.flush.FlushPublished?
    requires e'.flush.FlushIdle? && e'.frozen == e.frozen && e'.gen == e.gen
    ensures Segmented(wals - {e.flush.gen}, e') && e.flush.gen < e.gen
    ensures forall i | 0 <= i < |e.frozen| :: e.flush.gen < e.frozen[i].gen
  {
    hide Ascending, Covers;
    var g := e.flush.gen;
    GensApart(e);
    assert Gens(e) == [g] + Gens(e');
    DropFirst(wals, g, Gens(e'));
    assert forall x | x in (wals - {g}) - {e.gen} :: x in wals - {e.gen};
  }

  lemma FlushUnlinkBooks(s: State)
    requires Unlinkable(s)
    ensures Booked(DoFlushUnlink(s))
  {
    hide Segmented, Holdable;
    var e, s' := s.phase.e, DoFlushUnlink(s);
    UnlinkSegmented(s.disk.wals, e, s'.phase.e);
    forall i | i in e.writers ensures WriterOk(s', s'.phase.e, i, e.writers[i]) {
      assert WriterOk(s, e, i, e.writers[i]);
    }
  }

  /** The published segment is not needed any more. */
  lemma FlushUnlinkHolds(s: State, k: Key)
    requires Unlinkable(s) && HeldAt(s, k)
    ensures HeldAt(DoFlushUnlink(s), k)
  {
    hide Segmented, Acknowledged, Holdable, Base, LogLayer, Spec, FrozenLayer, On, Find, Seen;
    var e, s' := s.phase.e, DoFlushUnlink(s);
    UnlinkSegmented(s.disk.wals, e, s'.phase.e);
    assert FrozenAt(e.frozen, s'.disk.wals, k);
  }
}
