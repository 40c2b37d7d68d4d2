/**
 What every reachable state of the LSM engine satisfies, and the facts about logs and layers it needs.

 The invariant has three parts.  The catalogue is sound (`Formed`), and the positions in history and log fit together
 (`Booked`); these two hold in every run.  What the layers hold at a key is what the history says there (`HeldAt`);
 this holds at each key for itself, as long as the memtables take the records of that key.
 */
module LsmInvariants {
  import opened Layers
  import opened Memtables
  import opened OneKey
  import opened Manifests
  import opened LsmStates

  // ---- Logs as layers ------------------------------------------------------------------------------

  ghost predicate Ascending(gens: seq<nat>) {
    forall i, j | 0 <= i < j < |gens| :: gens[i] < gens[j]
  }

  ghost predicate Covers(gens: seq<nat>, wals: map<nat, Wal>) {
    && (forall i | 0 <= i < |gens| :: gens[i] in wals)
    && (forall g | g in wals :: g in gens)
  }

  /** The listed segments, replayed in list order. */
  ghost function ReplayList(wals: map<nat, Wal>, gens: seq<nat>): (l: Layer)
    requires forall i | 0 <= i < |gens| :: gens[i] in wals
  {
    if gens == [] then map[]
    else LogLayer(wals[gens[0]].records) + ReplayList(wals, gens[1..])
  }

  lemma {:induction false} ReplayListAppend(wals: map<nat, Wal>, a: seq<nat>, b: seq<nat>)
    requires forall i | 0 <= i < |a| :: a[i] in wals
    requires forall i | 0 <= i < |b| :: b[i] in wals
    ensures forall i | 0 <= i < |a + b| :: (a + b)[i] in wals
    ensures ReplayList(wals, a + b) == ReplayList(wals, a) + ReplayList(wals, b)
  {
    if a == [] {
      assert a + b == b;
    } else {
      assert (a + b)[1..] == a[1..] + b && (a + b)[0] == a[0];
      ReplayListAppend(wals, a[1..], b);
      hide LogLayer;
      MergeAssociative(LogLayer(wals[a[0]].records), ReplayList(wals, a[1..]), ReplayList(wals, b));
    }
  }

  lemma {:induction false} ReplayListFrame(wals: map<nat, Wal>, wals': map<nat, Wal>, gens: seq<nat>)
    requires forall i | 0 <= i < |gens| ::
             gens[i] in wals && gens[i] in wals' && wals[gens[i]].records == wals'[gens[i]].records
    ensures ReplayList(wals, gens) == ReplayList(wals', gens)
  {
    if gens != [] {
      ReplayListFrame(wals, wals', gens[1..]);
    }
  }

  /** The segment of the highest generation is replayed last. */
  lemma ReplayTop(wals: map<nat, Wal>, g: nat)
    requires g in wals && forall x | x in wals :: x <= g
    ensures Replay(wals) == Replay(wals - {g}) + LogLayer(wals[g].records)
  {
    assert MaxOf(wals.Keys) == g;
  }

  /** Sorting the directory's segments by generation gives the order in which they were written. */
  lemma {:induction false} ReplayInOrder(wals: map<nat, Wal>, gens: seq<nat>)
    requires Ascending(gens) && Covers(gens, wals)
    ensures Replay(wals) == ReplayList(wals, gens)
    decreases |gens|
  {
    if gens == [] {
      assert wals == map[];
    } else {
      var init, g := gens[..|gens|-1], gens[|gens|-1];
      TopOfList(wals, gens);
      hide Replay, ReplayList, LogLayer, Covers;
      calc {
        Replay(wals);
      ==  { ReplayTop(wals, g); }
        Replay(wals - {g}) + LogLayer(wals[g].records);
      ==  { ReplayInOrder(wals - {g}, init); }
        ReplayList(wals - {g}, init) + LogLayer(wals[g].records);
      ==  { ReplayListFrame(wals, wals - {g}, init); }
        ReplayList(wals, init) + LogLayer(wals[g].records);
      ==  { ReplayOne(wals, g); ReplayListAppend(wals, init, [g]); }
        ReplayList(wals, init + [g]);
      ==  { assert gens == init + [g]; }
        ReplayList(wals, gens);
      }
    }
  }

  lemma ReplayOne(wals: map<nat, Wal>, g: nat)
    requires g in wals
    ensures ReplayList(wals, [g]) == LogLayer(wals[g].records)
  {
    assert ReplayList(wals, [g]) == LogLayer(wals[g].records) + ReplayList(wals, []);
  }

  lemma TopOfList(wals: map<nat, Wal>, gens: seq<nat>)
    requires Ascending(gens) && Covers(gens, wals) && gens != []
    ensures gens[|gens|-1] in wals && forall x | x in wals :: x <= gens[|gens|-1]
    ensures Covers(gens[..|gens|-1], wals - {gens[|gens|-1]})
  {
    var init, g := gens[..|gens|-1], gens[|gens|-1];
    forall x | x in wals ensures x <= g && (x != g ==> x in init) {
      var i :| 0 <= i < |gens| && gens[i] == x;
      assert i < |init| ==> init[i] == x;
    }
  }

  /** The keys of a replay come from its segments. */
  lemma {:induction false} ReplayLacks(wals: map<nat, Wal>, k: Key)
    requires forall g | g in wals :: k !in LogLayer(wals[g].records)
    ensures k !in Replay(wals)
    decreases |wals|
  {
    hide LogLayer;
    if wals != map[] {
      var g := MaxOf(wals.Keys);
      SmallerMap(wals, g);
      ReplayLacks(wals - {g}, k);
    }
  }

  lemma {:induction false} ReplayContains(wals: map<nat, Wal>, g: nat)
    requires g in wals
    ensures LogLayer(wals[g].records).Keys <= Replay(wals).Keys
    decreases |wals|
  {
    var top := MaxOf(wals.Keys);
    if top != g {
      SmallerMap(wals, top);
      ReplayContains(wals - {top}, g);
    }
  }

  // ---- The recovered memtable ----------------------------------------------------------------------

  lemma {:induction false} RefillHoldable(wals: map<nat, Wal>)
    ensures Holdable(Refill(wals))
    decreases |wals|
  {
    if wals != map[] {
      var g := MaxOf(wals.Keys);
      SmallerMap(wals, g);
      hide Holdable, Filled;
      RefillHoldable(wals - {g});
      FillHoldable(Refill(wals - {g}), wals[g].records);
    }
  }

  /** `part` has some of the layer's keys, with the layer's entries. */
  ghost predicate PartOf(part: Layer, l: Layer) {
    part.Keys <= l.Keys && forall k | k in part :: part[k] == l[k]
  }

  lemma PartUnder(part: Layer, lower: Layer, l: Layer, upper: Layer)
    requires PartOf(part, lower + upper) && PartOf(lower, l)
    ensures PartOf(part, l + upper)
  {
  }

  lemma {:induction false} RefillIsPart(wals: map<nat, Wal>)
    ensures PartOf(Refill(wals), Replay(wals))
    decreases |wals|
  {
    if wals != map[] {
      var g := MaxOf(wals.Keys);
      SmallerMap(wals, g);
      hide Holdable, Filled, LogLayer;
      RefillIsPart(wals - {g});
      RefillHoldable(wals - {g});
      FillIsPart(Refill(wals - {g}), wals[g].records);
      PartUnder(Filled(Refill(wals - {g}), wals[g].records), Refill(wals - {g}), Replay(wals - {g}),
          LogLayer(wals[g].records));
    }
  }

  lemma {:induction false} RefillKeeps(wals: map<nat, Wal>)
    requires Holdable(Replay(wals))
    ensures Refill(wals) == Replay(wals)
    decreases |wals|
  {
    if wals != map[] {
      var g := MaxOf(wals.Keys);
      SmallerMap(wals, g);
      hide Holdable, Filled, LogLayer;
      PartHoldable(Replay(wals - {g}), Replay(wals));
      RefillKeeps(wals - {g});
      FillKeeps(Refill(wals - {g}), wals[g].records);
    }
  }

  /** Recovery keeps everything the segments say exactly when one memtable can hold it. */
  lemma RefillIff(wals: map<nat, Wal>)
    ensures Refill(wals) == Replay(wals) <==> Holdable(Replay(wals))
  {
    hide Holdable, Refill, Replay;
    RefillHoldable(wals);
    if Holdable(Replay(wals)) {
      RefillKeeps(wals);
    }
  }

  /** The listed segments, put into one memtable in list order. */
  ghost function FillList(wals: map<nat, Wal>, gens: seq<nat>): (l: Layer)
    requires forall i | 0 <= i < |gens| :: gens[i] in wals
  {
    if gens == [] then map[] else Filled(FillList(wals, gens[..|gens| - 1]), wals[gens[|gens| - 1]].records)
  }

  lemma {:induction false} FillListFrame(wals: map<nat, Wal>, wals': map<nat, Wal>, gens: seq<nat>)
    requires forall i | 0 <= i < |gens| ::
             gens[i] in wals && gens[i] in wals' && wals[gens[i]].records == wals'[gens[i]].records
    ensures FillList(wals, gens) == FillList(wals', gens)
  {
    hide Filled;
    if gens != [] {
      FillListFrame(wals, wals', gens[..|gens| - 1]);
    }
  }

  lemma RefillTop(wals: map<nat, Wal>, g: nat)
    requires g in wals && forall x | x in wals :: x <= g
    ensures Refill(wals) == Filled(Refill(wals - {g}), wals[g].records)
  {
    assert MaxOf(wals.Keys) == g;
  }

  lemma {:induction false} RefillInOrder(wals: map<nat, Wal>, gens: seq<nat>)
    requires Ascending(gens) && Covers(gens, wals)
    ensures Refill(wals) == FillList(wals, gens)
    decreases |gens|
  {
    if gens == [] {
      assert wals == map[];
    } else {
      var init, g := gens[..|gens| - 1], gens[|gens| - 1];
      TopOfList(wals, gens);
      assert forall i | 0 <= i < |init| :: init[i] in wals - {g};
      hide Filled, Refill, Covers;
      RefillTop(wals, g);
      RefillInOrder(wals - {g}, init);
      FillListFrame(wals, wals - {g}, init);
    }
  }

  ghost function Gens(e: Engine): (r: seq<nat>) {
    (if e.flush.FlushPublished? then [e.flush.gen] else []) + FrozenGens(e.frozen) + [e.gen]
  }

  ghost function FrozenGens(frozen: seq<Frozen>): (r: seq<nat>)
    ensures |r| == |frozen| && forall i | 0 <= i < |r| :: r[i] == frozen[i].gen
  {
    if frozen == [] then [] else [frozen[0].gen] + FrozenGens(frozen[1..])
  }

  /** The frozen memtables as one layer, newest on top. */
  ghost function FrozenLayer(frozen: seq<Frozen>): (l: Layer) {
    if frozen == [] then map[] else frozen[0].table + FrozenLayer(frozen[1..])
  }

  lemma {:induction false} FrozenSnoc(frozen: seq<Frozen>, f: Frozen)
    ensures FrozenLayer(frozen + [f]) == FrozenLayer(frozen) + f.table
    ensures FrozenGens(frozen + [f]) == FrozenGens(frozen) + [f.gen]
  {
    if frozen == [] {
      assert frozen + [f] == [f];
      assert FrozenLayer([f]) == f.table + FrozenLayer([]);
    } else {
      assert (frozen + [f])[1..] == frozen[1..] + [f] && (frozen + [f])[0] == frozen[0];
      FrozenSnoc(frozen[1..], f);
      MergeAssociative(frozen[0].table, FrozenLayer(frozen[1..]), f.table);
    }
  }

  lemma {:induction false} FrozenStack(frozen: seq<Frozen>)
    ensures Stack(FrozenLayers(frozen)) == FrozenLayer(frozen)
  {
    if frozen != [] {
      FrozenStack(frozen[1..]);
      StackAppend(FrozenLayers(frozen[1..]), [frozen[0].table]);
      StackOne(frozen[0].table);
    }
  }

  /** At one key, the frozen memtables hold what their segments say. */
  ghost predicate FrozenAt(frozen: seq<Frozen>, wals: map<nat, Wal>, k: Key) {
    forall i | 0 <= i < |frozen| ::
      frozen[i].gen in wals && On(frozen[i].table, k) == On(LogLayer(wals[frozen[i].gen].records), k)
  }

  lemma {:induction false} FrozenReplay(frozen: seq<Frozen>, wals: map<nat, Wal>, k: Key)
    requires FrozenAt(frozen, wals, k)
    ensures forall i | 0 <= i < |FrozenGens(frozen)| :: FrozenGens(frozen)[i] in wals
    ensures On(ReplayList(wals, FrozenGens(frozen)), k) == On(FrozenLayer(frozen), k)
  {
    hide LogLayer;
    if frozen != [] {
      FrozenReplay(frozen[1..], wals, k);
      assert FrozenGens(frozen)[1..] == FrozenGens(frozen[1..]);
      OnMerge(frozen[0].table, FrozenLayer(frozen[1..]), k);
      OnMerge(LogLayer(wals[frozen[0].gen].records), ReplayList(wals, FrozenGens(frozen[1..])), k);
    }
  }

  /** The engine's layers flatten to: files, then frozen memtables, then the memtable. */
  lemma EngineStack(e: Engine)
    ensures Stack(EngineLayers(e)) == Stack(SstLayers(e.ssts)) + FrozenLayer(e.frozen) + e.memtable
  {
    var upper := [e.memtable] + FrozenLayers(e.frozen);
    assert Stack(upper) == FrozenLayer(e.frozen) + e.memtable by {
      FrozenStack(e.frozen);
      StackAppend([e.memtable], FrozenLayers(e.frozen));
      StackOne(e.memtable);
    }
    StackAppend(upper, SstLayers(e.ssts));
    MergeAssociative(Stack(SstLayers(e.ssts)), FrozenLayer(e.frozen), e.memtable);
  }

  lemma EngineStore(e: Engine)
    ensures Apply(map[], Stack(EngineLayers(e))) == Apply(Base(e.ssts), FrozenLayer(e.frozen) + e.memtable)
  {
    EngineStack(e);
    MergeAssociative(Stack(SstLayers(e.ssts)), FrozenLayer(e.frozen), e.memtable);
    ApplyMerge(map[], Stack(SstLayers(e.ssts)), FrozenLayer(e.frozen) + e.memtable);
  }

  /** What get answers, in terms of what lies where at the key. */
  lemma GetSees(e: Engine, k: Key)
    ensures GetLocked(e, k) == Seen(Find(Base(e.ssts), k), Over(On(FrozenLayer(e.frozen), k), On(e.memtable, k)))
  {
    hide Base, Apply, Find, Stack, EngineLayers, FrozenLayer, Lookup;
    LookupIsFind(EngineLayers(e), k);
    EngineStore(e);
    SeenApplied(Base(e.ssts), FrozenLayer(e.frozen) + e.memtable, k);
    OnMerge(FrozenLayer(e.frozen), e.memtable, k);
  }

  // ---- The invariant -------------------------------------------------------------------------------

  ghost predicate AllDurable(wals: map<nat, Wal>) {
    forall g | g in wals :: wals[g].durable == |wals[g].records|
  }

  /** What the specification says the engine holds. */
  function Contents(s: State): (r: Store) {
    Spec(map[], s.hist)
  }

  /** The catalogue in memory and the one on disk name the same files in the same order, and all exist. */
  ghost predicate Catalogued(saved: Manifest, files: map<Path, Sst>, m: Manifest, ssts: seq<Sst>) {
    && Sound(m) && Sound(saved)
    && Order(saved) == Order(m)
    && saved.next <= m.next
    && AllPresent(Order(m), files)
    && ssts == Opened(Order(m), files)
  }

  /** Every record restates what the layer holds. */
  ghost predicate Restates(ws: seq<Write>, l: Layer) {
    forall i | 0 <= i < |ws| :: ws[i].key in l && l[ws[i].key] == EntryOf(ws[i])
  }

  /** A writer in flight is covered by what its commit will wait for. */
  ghost predicate WriterOk(s: State, e: Engine, i: nat, w: Writer) {
    && i < |s.hist|
    && w.gen <= e.gen
    && (w.gen < e.gen ==> i < s.base)
    && (w.gen == e.gen && w.Committing? ==> i < s.base + w.needed - s.ckpt)
  }

  ghost predicate Acknowledged(s: State, e: Engine) {
    && e.gen in s.disk.wals
    && s.acked <= s.base + s.disk.wals[e.gen].durable - s.ckpt
    && forall i | i in e.writers :: WriterOk(s, e, i, e.writers[i])
  }

  ghost predicate FreshPath(order: seq<Meta>, p: Path) {
    forall i | 0 <= i < |order| :: order[i].path != p
  }

  ghost predicate Numbered(e: Engine, f: Frozen, n: nat) {
    && e.frozen != [] && e.frozen[0] == f
    && n < e.manifest.next
    && FreshPath(Order(e.manifest), Flushed(n))
    && (forall i | 0 <= i < |Order(e.manifest)| :: Order(e.manifest)[i].seqno < n)
  }

  ghost predicate FlushOk(files: map<Path, Sst>, e: Engine) {
    match e.flush
    case FlushIdle => true
    case FlushPicked(f) => e.frozen != [] && e.frozen[0] == f
    case FlushNumbered(f, n) => Numbered(e, f, n)
    case FlushWritten(f, n, sst) =>
      Numbered(e, f, n) && sst.path == Flushed(n) && sst.entries == f.table && sst.path in files
          && files[sst.path] == sst
    case FlushPublished(_) => true
  }

  ghost predicate RunAt(e: Engine, inputs: seq<Sst>, metas: seq<Meta>, complete: bool, i: nat) {
    && i + FANOUT <= |e.ssts| == |Order(e.manifest)|
    && e.ssts[i..i + FANOUT] == inputs
    && Order(e.manifest)[i..i + FANOUT] == metas
    && (complete ==> i + FANOUT == |e.ssts|)
  }

  ghost predicate Merging(e: Engine, inputs: seq<Sst>, metas: seq<Meta>, complete: bool, n: nat) {
    && n < e.manifest.next
    && FreshPath(Order(e.manifest), Compacted(n))
    && exists i: nat :: RunAt(e, inputs, metas, complete, i)
  }

  ghost predicate CompactOk(files: map<Path, Sst>, e: Engine) {
    match e.compact
    case CompactIdle => true
    case CompactMerging(inputs, metas, complete, n) => Merging(e, inputs, metas, complete, n)
    case CompactWritten(inputs, metas, complete, n, sst) =>
      && Merging(e, inputs, metas, complete, n)
      && sst.path == Compacted(n) && sst.entries == MergedEntries(inputs, complete)
      && sst.path in files && files[sst.path] == sst
    case CompactPublished(obsolete) => forall i | 0 <= i < |obsolete| :: Obsolete(e, obsolete[i])
  }

  /** A file nobody needs: catalogued no longer, and not the one the flush thread is about to publish. */
  ghost predicate Obsolete(e: Engine, p: Path) {
    && p.n < e.manifest.next
    && FreshPath(Order(e.manifest), p)
    && (e.flush.FlushNumbered? || e.flush.FlushWritten? ==> p != Flushed(e.flush.number))
  }

  /** What holds of the catalogue and the background threads, whatever the memtables took. */
  ghost predicate Shaped(s: State) {
    && s.phase.Running?
    && Catalogued(s.disk.manifest, s.disk.files, s.phase.e.manifest, s.phase.e.ssts)
    && FlushOk(s.disk.files, s.phase.e)
    && CompactOk(s.disk.files, s.phase.e)
  }

  lemma MakesShaped(s: State)
    requires IsRunning(s) && Catalogued(s.disk.manifest, s.disk.files, s.phase.e.manifest, s.phase.e.ssts)
    requires FlushOk(s.disk.files, s.phase.e) && CompactOk(s.disk.files, s.phase.e)
    ensures Shaped(s)
  {
    hide Catalogued, FlushOk, CompactOk;
  }

  /** The part of the invariant that is about the catalogue. */
  ghost predicate Formed(s: State) {
    match s.phase
    case Down => Sound(s.disk.manifest) && AllPresent(Order(s.disk.manifest), s.disk.files)
    case Loading(m, ssts) => m == s.disk.manifest && Catalogued(s.disk.manifest, s.disk.files, m, ssts)
    case Checkpointing(m, ssts, _, _, _) =>
      m == s.disk.manifest && Catalogued(s.disk.manifest, s.disk.files, m, ssts)
    case Deleting(m, ssts, _, _) =>
      m == s.disk.manifest && Catalogued(s.disk.manifest, s.disk.files, m, ssts)
    case Running(_) => Shaped(s)
  }

  /** The active segment ends with the latest stretch of history. */
  ghost predicate Tailed(s: State, e: Engine) {
    && e.gen in s.disk.wals
    && var w := s.disk.wals[e.gen];
    && s.ckpt <= w.durable <= |w.records|
    && s.base <= |s.hist|
    && w.records[s.ckpt..] == s.hist[s.base..]
  }

  /** The segments on disk are the memtables', plus one just published and about to be deleted. */
  ghost predicate Segmented(wals: map<nat, Wal>, e: Engine) {
    Ascending(Gens(e)) && Covers(Gens(e), wals) && AllDurable(wals - {e.gen})
  }

  /** The part of the invariant that is about segments, positions and writers. */
  ghost predicate Booked(s: State) {
    match s.phase
    case Down => AllDurable(s.disk.wals) && s.acked <= |s.hist|
    case Loading(_, _) => AllDurable(s.disk.wals) && s.acked <= |s.hist|
    case Checkpointing(_, _, memtable, g, todo) => Checkpointed(s, memtable, g, todo)
    case Deleting(_, _, memtable, g) =>
      && g in s.disk.wals && (forall x | x in s.disk.wals :: x <= g)
      && AllDurable(s.disk.wals) && memtable == LogLayer(s.disk.wals[g].records) && Holdable(memtable)
      && s.acked <= |s.hist|
    case Running(e) => Segmented(s.disk.wals, e) && Tailed(s, e) && Acknowledged(s, e) && Holdable(e.memtable)
  }

  ghost predicate Checkpointed(s: State, memtable: Layer, g: nat, todo: seq<Write>) {
    && g in s.disk.wals && (forall x | x in s.disk.wals :: x <= g)
    && AllDurable(s.disk.wals - {g}) && s.disk.wals[g].durable <= |s.disk.wals[g].records|
    && Enumerates(s.disk.wals[g].records + todo, memtable) && Holdable(memtable)
    && s.acked <= |s.hist|
  }

  /** In a running engine: memtables as logged, and under the latest stretch of history what came before it. */
  ghost predicate RunningAt(s: State, e: Engine, k: Key) {
    && e.gen in s.disk.wals
    && var w, below := s.disk.wals[e.gen], Find(Base(e.ssts), k);
    && On(e.memtable, k) == On(LogLayer(w.records), k)
    && FrozenAt(e.frozen, s.disk.wals, k)
    && (e.flush.FlushPublished? ==>
          e.flush.gen in s.disk.wals && Seen(below, On(LogLayer(s.disk.wals[e.flush.gen].records), k)) == below)
    && s.ckpt <= |w.records| && s.base <= |s.hist|
    && Seen(below, Over(On(FrozenLayer(e.frozen), k), On(LogLayer(w.records[..s.ckpt]), k)))
         == Find(Spec(map[], s.hist[..s.base]), k)
  }

  /** In a directory at rest: files and segments together. */
  ghost predicate RestingAt(s: State, k: Key) {
    && AllPresent(Order(s.disk.manifest), s.disk.files)
    && Seen(Find(Base(Opened(Order(s.disk.manifest), s.disk.files)), k), On(Replay(s.disk.wals), k))
         == Find(Contents(s), k)
  }

  /** The part of the invariant that is about what is held at one key. */
  ghost predicate HeldAt(s: State, k: Key) {
    match s.phase
    case Down => RestingAt(s, k)
    case Loading(_, _) => RestingAt(s, k)
    case Checkpointing(_, ssts, memtable, g, _) =>
      && On(memtable, k) == On(Replay(s.disk.wals - {g}), k)
      && Seen(Find(Base(ssts), k), On(memtable, k)) == Find(Contents(s), k)
    case Deleting(_, ssts, memtable, _) =>
      && (forall x | x in s.disk.wals && k in LogLayer(s.disk.wals[x].records) :: k in memtable)
      && Seen(Find(Base(ssts), k), On(memtable, k)) == Find(Contents(s), k)
    case Running(e) => RunningAt(s, e, k)
  }

  ghost predicate Inv(s: State) {
    Formed(s) && Booked(s) && forall k: Key :: HeldAt(s, k)
  }

  ghost predicate Live(s: State) {
    s.phase.Running? && Inv(s)
  }

  lemma RunsWhenLive(s: State)
    requires Live(s)
    ensures IsRunning(s)
  {
    hide Inv;
  }

  lemma ShapedWhenRunning(s: State)
    requires Formed(s) && IsRunning(s)
    ensures Shaped(s)
  {
    hide Shaped;
  }

  lemma ActiveWhenBooked(s: State)
    requires Booked(s) && IsRunning(s)
    ensures HasActiveWal(s)
  {
    hide Segmented, Acknowledged;
  }

  lemma ActiveWhenLive(s: State)
    requires Live(s)
    ensures IsRunning(s) && HasActiveWal(s)
  {
    hide Formed, Booked, HeldAt;
    ActiveWhenBooked(s);
  }

  lemma AckedWhenBooked(s: State)
    requires Booked(s)
    ensures s.acked <= |s.hist|
  {
    hide Segmented, AllDurable, Enumerates, LogLayer;
    if s.phase.Running? {
      TailLength(s, s.phase.e);
    }
  }

  lemma TailLength(s: State, e: Engine)
    requires Tailed(s, e)
    ensures |s.hist| == s.base + |s.disk.wals[e.gen].records| - s.ckpt
  {
    assert |s.disk.wals[e.gen].records[s.ckpt..]| == |s.hist[s.base..]|;
  }
}
