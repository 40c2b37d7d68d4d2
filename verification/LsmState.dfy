/**
 The LSM engine as a state machine (src/engine/lsm/lsm_engine.cpp).

 A step is one region that runs under the engine's lock, one file operation of a background thread, one
 stretch of the write-ahead log reaching the device, or a crash.  The flush thread, the compaction thread,
 any number of writers and the recovery code interleave at this grain, in every order.

 Beside the engine's own data the state records what a specification needs to speak about: the writes made
 under the lock, in order, that no crash has cut off (`hist`), how many of them have been acknowledged
 (`acked`: one more than the largest position whose commit has returned), and where the active log segment
 begins (`base`, `ckpt`).
 */
module LsmStates {
  import opened Bytes
  import opened Values
  import opened Layers
  import opened Memtables
  import opened Manifests

  /** memtable_flush_threshold_. */
  const THRESHOLD: nat := 1000
  /** kCompactionFanout. */
  const FANOUT: nat := 4
  /** kBaseSize of size_tier. */
  const BASE_SIZE: nat := 1048576

  /** An SSTable: its file, or the mapping an engine keeps of it after the file is gone. */
  datatype Sst = Sst(path: Path, entries: Layer, size: nat)

  /** A log segment: the records in the file, of which the first `durable` are on the device. */
  datatype Wal = Wal(records: seq<Write>, durable: nat)

  datatype Disk = Disk(wals: map<nat, Wal>, manifest: Manifest, files: map<Path, Sst>)

  datatype Frozen = Frozen(table: Layer, gen: nat)

  /** A writer that released the lock: before commit() read the appended count, and after. */
  datatype Writer = Appended(gen: nat) | Committing(gen: nat, needed: nat)

  datatype FlushPc =
    | FlushIdle
    | FlushPicked(f: Frozen)
    | FlushNumbered(f: Frozen, number: nat)
    | FlushWritten(f: Frozen, number: nat, sst: Sst)
    | FlushPublished(gen: nat)

  datatype CompactPc =
    | CompactIdle
    | CompactMerging(inputs: seq<Sst>, metas: seq<Meta>, complete: bool, number: nat)
    | CompactWritten(inputs: seq<Sst>, metas: seq<Meta>, complete: bool, number: nat, sst: Sst)
    | CompactPublished(obsolete: seq<Path>)

  datatype Engine = Engine(
    memtable: Layer,
    frozen: seq<Frozen>,          // oldest first
    ssts: seq<Sst>,               // newest first
    gen: nat,
    manifest: Manifest,
    flush: FlushPc,
    compact: CompactPc,
    writers: map<nat, Writer>,
    unlinked: map<nat, Wal>)      // segments already deleted, still held by committing writers

  datatype Phase =
    | Down
    | Loading(manifest: Manifest, ssts: seq<Sst>)
    | Checkpointing(manifest: Manifest, ssts: seq<Sst>, memtable: Layer, gen: nat, todo: seq<Write>)
    | Deleting(manifest: Manifest, ssts: seq<Sst>, memtable: Layer, gen: nat)
    | Running(e: Engine)

  datatype State = State(disk: Disk, phase: Phase, hist: seq<Write>, acked: nat, base: nat, ckpt: nat)

  datatype Step =
    | LockedWrite(w: Write)
    | WalReachesDevice(n: nat)
    | CommitCall(i: nat)
    | CommitReturn(i: nat)
    | FlushPick
    | FlushNumber
    | FlushWrite(size: nat)
    | FlushWriteFails
    | FlushPublish
    | FlushPublishFails
    | FlushUnlink
    | CompactSnapshot
    | CompactWrite(size: nat)
    | CompactWriteFails
    | CompactPublish
    | CompactPublishFails(resaved: bool)
    | CompactUnlink
    | SaveManifest
    | Crash(cuts: map<nat, nat>)
    | Load
    | RemoveOrphan(p: Path)
    | ReplayLogs(order: seq<Write>)
    | CheckpointAppend
    | CheckpointDone
    | DeleteSegment(g: nat)
    | Start

  // ---- Log segments --------------------------------------------------------------------------------

  function MaxOf(s: set<nat>): (m: nat)
    requires s != {}
    ensures m in s && forall x | x in s :: x <= m
  {
    MaxExists(s);
    var m :| m in s && forall x | x in s :: x <= m;
    m
  }

  lemma {:induction false} MaxExists(s: set<nat>)
    requires s != {}
    ensures exists m :: m in s && forall x | x in s :: x <= m
  {
    var y :| y in s;
    var t := s - {y};
    if t == {} {
      assert forall x | x in s :: x in t || x == y;
    } else {
      MaxExists(t);
      var m :| m in t && forall x | x in t :: x <= m;
      var top := if y > m then y else m;
      forall x | x in s ensures x <= top {
        assert x in t || x == y;
      }
    }
  }

  /** What the segments say, in generation order, later records on top. */
  function Replay(wals: map<nat, Wal>): (l: Layer)
    decreases |wals|
  {
    if wals == map[] then map[]
    else
      var g := MaxOf(wals.Keys);
      assert |wals - {g}| < |wals| by { SmallerMap(wals, g); }
      Replay(wals - {g}) + LogLayer(wals[g].records)
  }

  /** recover_from_wal's replay: the same records, put into one memtable, which may not take them all. */
  function Refill(wals: map<nat, Wal>): (l: Layer)
    decreases |wals|
  {
    if wals == map[] then map[]
    else
      var g := MaxOf(wals.Keys);
      assert |wals - {g}| < |wals| by { SmallerMap(wals, g); }
      Filled(Refill(wals - {g}), wals[g].records)
  }

  lemma SmallerMap(wals: map<nat, Wal>, g: nat)
    requires g in wals
    ensures |wals - {g}| < |wals|
  {
    assert (wals - {g}).Keys == wals.Keys - {g};
    assert |wals.Keys - {g}| < |wals.Keys|;
  }

  function NextGeneration(wals: map<nat, Wal>): (g: nat) {
    if wals == map[] then 0 else MaxOf(wals.Keys) + 1
  }

  // ---- SSTables ------------------------------------------------------------------------------------

  function SstLayers(ssts: seq<Sst>): (r: seq<Layer>) {
    if ssts == [] then [] else [ssts[0].entries] + SstLayers(ssts[1..])
  }

  function FrozenLayers(frozen: seq<Frozen>): (r: seq<Layer>) {
    if frozen == [] then [] else FrozenLayers(frozen[1..]) + [frozen[0].table]
  }

  /** The layers in the order get_locked visits them. */
  function EngineLayers(e: Engine): (r: seq<Layer>) {
    [e.memtable] + FrozenLayers(e.frozen) + SstLayers(e.ssts)
  }

  function GetLocked(e: Engine, k: Key): (r: Option<Item>) {
    Lookup(EngineLayers(e), k)
  }

  /** Everything under the memtables, as a plain store. */
  function Base(ssts: seq<Sst>): (s: Store) {
    Apply(map[], Stack(SstLayers(ssts)))
  }

  predicate AllPresent(order: seq<Meta>, files: map<Path, Sst>) {
    forall i | 0 <= i < |order| :: order[i].path in files && files[order[i].path].path == order[i].path
  }

  /** The files a restart opens, in the manifest's order. */
  function Opened(order: seq<Meta>, files: map<Path, Sst>): (r: seq<Sst>)
    requires AllPresent(order, files)
    ensures |r| == |order| && forall i | 0 <= i < |r| :: r[i] == files[order[i].path]
  {
    seq(|order|, i requires 0 <= i < |order| => files[order[i].path])
  }

  // ---- Compaction ----------------------------------------------------------------------------------

  /** Powers of four. */
  function TierOfUnits(units: nat): (t: nat) {
    if units < 4 then 0 else 1 + TierOfUnits(units / 4)
  }

  function SizeTier(bytes: nat): (t: nat) {
    var units := (bytes + BASE_SIZE - 1) / BASE_SIZE;
    TierOfUnits(if units < 1 then 1 else units)
  }

  /** compact()'s scan from the oldest file: `len` files after position i already share one tier. */
  function ScanRun(ssts: seq<Sst>, i: int, len: nat): (r: Option<nat>)
    requires -1 <= i < |ssts| && len < FANOUT && i + len < |ssts|
    decreases i + 1
  {
    if i < 0 then None
    else
      var len' := if len > 0 && SizeTier(ssts[i].size) == SizeTier(ssts[i + 1].size) then len + 1 else 1;
      if len' == FANOUT then Some(i) else ScanRun(ssts, i - 1, len')
  }

  /** Where the chosen run of FANOUT neighbouring files starts. */
  function SelectRun(ssts: seq<Sst>): (r: Option<nat>) {
    if |ssts| < FANOUT then None else ScanRun(ssts, |ssts| - 1, 0)
  }

  function MergedEntries(inputs: seq<Sst>, complete: bool): (l: Layer) {
    if complete then Purge(Stack(SstLayers(inputs))) else Stack(SstLayers(inputs))
  }

  function MaxSeqno(metas: seq<Meta>): (n: nat) {
    if metas == [] then 0
    else if metas[0].seqno > MaxSeqno(metas[1..]) then metas[0].seqno else MaxSeqno(metas[1..])
  }

  function PathsOf(metas: seq<Meta>): (r: seq<Path>) {
    if metas == [] then [] else [metas[0].path] + PathsOf(metas[1..])
  }

  /** The publish loop: the first obsolete file gives its place to the output, the others go. */
  function Splice(ssts: seq<Sst>, obsolete: seq<Path>, sst: Sst, inserted: bool): (r: seq<Sst>) {
    if ssts == [] then (if inserted then [] else [sst])
    else if ssts[0].path in obsolete then
      (if inserted then [] else [sst]) + Splice(ssts[1..], obsolete, sst, true)
    else [ssts[0]] + Splice(ssts[1..], obsolete, sst, inserted)
  }

  function OutputMeta(metas: seq<Meta>, sst: Sst): (x: Meta) {
    Meta(sst.path, 1, MaxSeqno(metas))
  }

  // ---- Steps ---------------------------------------------------------------------------------------

  predicate IsRunning(s: State) {
    s.phase.Running?
  }

  function WalOf(s: State, g: nat): (w: Option<Wal>) {
    if g in s.disk.wals then Some(s.disk.wals[g])
    else if s.phase.Running? && g in s.phase.e.unlinked then Some(s.phase.e.unlinked[g])
    else None
  }

  /** The generation whose segment is being appended to. */
  predicate HasActiveWal(s: State) {
    (s.phase.Running? && s.phase.e.gen in s.disk.wals) || (s.phase.Checkpointing? && s.phase.gen in s.disk.wals)
  }

  function ActiveGen(s: State): (g: nat)
    requires HasActiveWal(s)
  {
    if s.phase.Running? then s.phase.e.gen else s.phase.gen
  }

  predicate Surviving(wals: map<nat, Wal>, cuts: map<nat, nat>) {
    && cuts.Keys == wals.Keys
    && forall g | g in wals :: wals[g].durable <= cuts[g] <= |wals[g].records|
  }

  /** The recovered memtable, one record per key, in some order. */
  predicate Enumerates(order: seq<Write>, l: Layer) {
    && (forall i | 0 <= i < |order| :: order[i].key in l && l[order[i].key] == EntryOf(order[i]))
    && (forall k | k in l :: exists i :: 0 <= i < |order| && order[i].key == k)
  }

  predicate Enabled(s: State, step: Step) {
    match step
    case LockedWrite(w) => IsRunning(s) && HasActiveWal(s)
    case WalReachesDevice(n) =>
      HasActiveWal(s) && s.disk.wals[ActiveGen(s)].durable <= n <= |s.disk.wals[ActiveGen(s)].records|
    case CommitCall(i) =>
      IsRunning(s) && i in s.phase.e.writers && s.phase.e.writers[i].Appended?
          && WalOf(s, s.phase.e.writers[i].gen).Some?
    case CommitReturn(i) =>
      && IsRunning(s) && i in s.phase.e.writers && s.phase.e.writers[i].Committing?
      && WalOf(s, s.phase.e.writers[i].gen).Some?
      && WalOf(s, s.phase.e.writers[i].gen).value.durable >= s.phase.e.writers[i].needed
    case FlushPick => IsRunning(s) && s.phase.e.flush.FlushIdle? && s.phase.e.frozen != []
    case FlushNumber => IsRunning(s) && s.phase.e.flush.FlushPicked?
    case FlushWrite(_) => IsRunning(s) && s.phase.e.flush.FlushNumbered?
    case FlushWriteFails => IsRunning(s) && s.phase.e.flush.FlushNumbered?
    case FlushPublish => IsRunning(s) && s.phase.e.flush.FlushWritten? && s.phase.e.frozen != []
    case FlushPublishFails => IsRunning(s) && s.phase.e.flush.FlushWritten?
    case FlushUnlink => IsRunning(s) && s.phase.e.flush.FlushPublished? && s.phase.e.flush.gen in s.disk.wals
    case CompactSnapshot =>
      && IsRunning(s) && s.phase.e.compact.CompactIdle? && SelectRun(s.phase.e.ssts).Some?
      && SelectRun(s.phase.e.ssts).value + FANOUT <= |s.phase.e.ssts|
      && |Order(s.phase.e.manifest)| == |s.phase.e.ssts|
    case CompactWrite(_) => IsRunning(s) && s.phase.e.compact.CompactMerging?
    case CompactWriteFails => IsRunning(s) && s.phase.e.compact.CompactMerging?
    case CompactPublish => IsRunning(s) && s.phase.e.compact.CompactWritten?
    case CompactPublishFails(_) => IsRunning(s) && s.phase.e.compact.CompactWritten?
    case CompactUnlink => IsRunning(s) && s.phase.e.compact.CompactPublished?
    case SaveManifest => IsRunning(s)
    case Crash(cuts) => Surviving(s.disk.wals, cuts)
        && (IsRunning(s) ==> HasActiveWal(s) && CutPoint(s, cuts) <= |s.hist|)
    case Load => s.phase.Down? && AllPresent(Order(s.disk.manifest), s.disk.files)
    case RemoveOrphan(p) => s.phase.Loading? && forall i | 0 <= i < |s.phase.ssts| :: s.phase.ssts[i].path != p
    case ReplayLogs(order) => s.phase.Loading? && Enumerates(order, Refill(s.disk.wals))
    case CheckpointAppend =>
      && s.phase.Checkpointing? && s.phase.todo != [] && s.phase.gen in s.disk.wals
      && s.disk.wals[s.phase.gen].durable == |s.disk.wals[s.phase.gen].records|
    case CheckpointDone =>
      && s.phase.Checkpointing? && s.phase.todo == [] && s.phase.gen in s.disk.wals
      && s.disk.wals[s.phase.gen].durable == |s.disk.wals[s.phase.gen].records|
    case DeleteSegment(g) => s.phase.Deleting? && g in s.disk.wals && g != s.phase.gen
    case Start => s.phase.Deleting? && s.disk.wals.Keys == {s.phase.gen}
  }

  /** How much of the history a crash with these cuts leaves. */
  function CutPoint(s: State, cuts: map<nat, nat>): (n: nat)
    requires IsRunning(s) && HasActiveWal(s) && Surviving(s.disk.wals, cuts)
  {
    var n: int := s.base + cuts[s.phase.e.gen] - s.ckpt;
    if n < 0 then 0 else n
  }

  function WithEngine(s: State, e: Engine): (r: State) {
    s.(phase := Running(e))
  }

  /** put_locked / remove_locked, with the rotation they end in. */
  function DoWrite(s: State, w: Write): (r: State)
    requires IsRunning(s) && HasActiveWal(s)
  {
    var e := s.phase.e;
    var wal := s.disk.wals[e.gen];
    var records := wal.records + [w];
    var table := Inserted(e.memtable, w.key, EntryOf(w));
    var writers := e.writers[|s.hist| := Appended(e.gen)];
    if |table| < THRESHOLD then
      s.(disk := s.disk.(wals := s.disk.wals[e.gen := Wal(records, wal.durable)]),
         phase := Running(e.(memtable := table, writers := writers)),
         hist := s.hist + [w])
    else
      s.(disk := s.disk.(wals := s.disk.wals[e.gen := Wal(records, |records|)][e.gen + 1 := Wal([], 0)]),
         phase := Running(e.(memtable := map[], frozen := e.frozen + [Frozen(table, e.gen)], gen := e.gen + 1,
                             writers := writers)),
         hist := s.hist + [w], base := |s.hist| + 1, ckpt := 0)
  }

  function DoReachDevice(s: State, n: nat): (r: State)
    requires HasActiveWal(s)
  {
    var g := ActiveGen(s);
    s.(disk := s.disk.(wals := s.disk.wals[g := s.disk.wals[g].(durable := n)]))
  }

  /** commit() reads the appended count of the segment its record went to. */
  function DoCommitCall(s: State, i: nat): (r: State)
    requires IsRunning(s) && i in s.phase.e.writers && WalOf(s, s.phase.e.writers[i].gen).Some?
  {
    var e := s.phase.e;
    var g := e.writers[i].gen;
    WithEngine(s, e.(writers := e.writers[i := Committing(g, |WalOf(s, g).value.records|)]))
  }

  function DoCommitReturn(s: State, i: nat): (r: State)
    requires IsRunning(s)
  {
    WithEngine(s, s.phase.e.(writers := s.phase.e.writers - {i})).(acked := if i < s.acked then s.acked else i + 1)
  }

  function DoFlushPick(s: State): (r: State)
    requires IsRunning(s) && s.phase.e.frozen != []
  {
    WithEngine(s, s.phase.e.(flush := FlushPicked(s.phase.e.frozen[0])))
  }

  function DoFlushNumber(s: State): (r: State)
    requires IsRunning(s) && s.phase.e.flush.FlushPicked?
  {
    var e := s.phase.e;
    WithEngine(s, e.(manifest := e.manifest.(next := e.manifest.next + 1),
        flush := FlushNumbered(e.flush.f, e.manifest.next)))
  }

  function DoFlushWrite(s: State, size: nat): (r: State)
    requires IsRunning(s) && s.phase.e.flush.FlushNumbered?
  {
    var e := s.phase.e;
    var sst := Sst(Flushed(e.flush.number), e.flush.f.table, size);
    s.(disk := s.disk.(files := s.disk.files[sst.path := sst]),
       phase := Running(e.(flush := FlushWritten(e.flush.f, e.flush.number, sst))))
  }

  function DoFlushIdle(s: State): (r: State)
    requires IsRunning(s)
  {
    WithEngine(s, s.phase.e.(flush := FlushIdle))
  }

  function DoFlushPublish(s: State): (r: State)
    requires IsRunning(s) && s.phase.e.flush.FlushWritten? && s.phase.e.frozen != []
  {
    var e := s.phase.e;
    var m := AddFile(e.manifest, 0, Meta(e.flush.sst.path, 0, e.flush.number));
    s.(disk := s.disk.(manifest := m),
       phase := Running(e.(manifest := m, ssts := [e.flush.sst] + e.ssts, frozen := e.frozen[1..],
                           flush := FlushPublished(e.flush.f.gen))))
  }

  function DoFlushPublishFails(s: State): (r: State)
    requires IsRunning(s) && s.phase.e.flush.FlushWritten?
  {
    var e := s.phase.e;
    var x := Meta(e.flush.sst.path, 0, e.flush.number);
    s.(disk := s.disk.(files := s.disk.files - {x.path}),
       phase := Running(e.(manifest := RemoveFile(AddFile(e.manifest, 0, x), 0, x.path), flush := FlushIdle)))
  }

  function DoFlushUnlink(s: State): (r: State)
    requires IsRunning(s) && s.phase.e.flush.FlushPublished? && s.phase.e.flush.gen in s.disk.wals
  {
    var e := s.phase.e;
    s.(disk := s.disk.(wals := s.disk.wals - {e.flush.gen}),
       phase := Running(e.(flush := FlushIdle, unlinked := e.unlinked[e.flush.gen := s.disk.wals[e.flush.gen]])))
  }

  function DoCompactSnapshot(s: State): (r: State)
    requires IsRunning(s) && |Order(s.phase.e.manifest)| == |s.phase.e.ssts|
    requires SelectRun(s.phase.e.ssts).Some? && SelectRun(s.phase.e.ssts).value + FANOUT <= |s.phase.e.ssts|
  {
    var e := s.phase.e;
    var i := SelectRun(e.ssts).value;
    WithEngine(s, e.(
      manifest := e.manifest.(next := e.manifest.next + 1),
      compact := CompactMerging(e.ssts[i..i + FANOUT], Order(e.manifest)[i..i + FANOUT], FANOUT == |e.ssts|,
          e.manifest.next)))
  }

  function DoCompactWrite(s: State, size: nat): (r: State)
    requires IsRunning(s) && s.phase.e.compact.CompactMerging?
  {
    var e := s.phase.e;
    var c := e.compact;
    var sst := Sst(Compacted(c.number), MergedEntries(c.inputs, c.complete), size);
    s.(disk := s.disk.(files := s.disk.files[sst.path := sst]),
       phase := Running(e.(compact := CompactWritten(c.inputs, c.metas, c.complete, c.number, sst))))
  }

  function DoCompactIdle(s: State): (r: State)
    requires IsRunning(s)
  {
    WithEngine(s, s.phase.e.(compact := CompactIdle))
  }

  function DoCompactPublish(s: State): (r: State)
    requires IsRunning(s) && s.phase.e.compact.CompactWritten?
  {
    var e := s.phase.e;
    var c := e.compact;
    var m := AddFile(RemoveAll(e.manifest, c.metas), 1, OutputMeta(c.metas, c.sst));
    s.(disk := s.disk.(manifest := m),
       phase := Running(e.(manifest := m, ssts := Splice(e.ssts, PathsOf(c.metas), c.sst, false),
                           compact := CompactPublished(PathsOf(c.metas)))))
  }

  function DoCompactPublishFails(s: State, resaved: bool): (r: State)
    requires IsRunning(s) && s.phase.e.compact.CompactWritten?
  {
    var e := s.phase.e;
    var c := e.compact;
    var m := Undo(e.manifest, c.metas, OutputMeta(c.metas, c.sst));
    s.(disk := s.disk.(manifest := if resaved then m else s.disk.manifest, files := s.disk.files - {c.sst.path}),
       phase := Running(e.(manifest := m, compact := CompactIdle)))
  }

  function DoCompactUnlink(s: State): (r: State)
    requires IsRunning(s) && s.phase.e.compact.CompactPublished?
  {
    var e := s.phase.e;
    if e.compact.obsolete == [] then WithEngine(s, e.(compact := CompactIdle))
    else
      s.(disk := s.disk.(files := s.disk.files - {e.compact.obsolete[0]}),
         phase := Running(e.(compact := CompactPublished(e.compact.obsolete[1..]))))
  }

  function DoSaveManifest(s: State): (r: State)
    requires IsRunning(s)
  {
    s.(disk := s.disk.(manifest := s.phase.e.manifest))
  }

  function DoCrash(s: State, cuts: map<nat, nat>): (r: State)
    requires Surviving(s.disk.wals, cuts) && (IsRunning(s) ==> HasActiveWal(s) && CutPoint(s, cuts) <= |s.hist|)
  {
    State(s.disk.(wals := map g | g in s.disk.wals :: Wal(s.disk.wals[g].records[..cuts[g]], cuts[g])),
          Down,
          if IsRunning(s) then s.hist[..CutPoint(s, cuts)] else s.hist,
          s.acked, 0, 0)
  }

  function DoLoad(s: State): (r: State)
    requires AllPresent(Order(s.disk.manifest), s.disk.files)
  {
    s.(phase := Loading(s.disk.manifest, Opened(Order(s.disk.manifest), s.disk.files)))
  }

  function DoRemoveOrphan(s: State, p: Path): (r: State) {
    s.(disk := s.disk.(files := s.disk.files - {p}))
  }

  function DoReplay(s: State, order: seq<Write>): (r: State)
    requires s.phase.Loading?
  {
    var g := NextGeneration(s.disk.wals);
    s.(disk := s.disk.(wals := s.disk.wals[g := Wal([], 0)]),
       phase := Checkpointing(s.phase.manifest, s.phase.ssts, Refill(s.disk.wals), g, order))
  }

  function DoCheckpointAppend(s: State): (r: State)
    requires s.phase.Checkpointing? && s.phase.todo != [] && s.phase.gen in s.disk.wals
  {
    var p := s.phase;
    var w := s.disk.wals[p.gen];
    s.(disk := s.disk.(wals := s.disk.wals[p.gen := Wal(w.records + [p.todo[0]], w.durable)]),
       phase := p.(todo := p.todo[1..]))
  }

  function DoCheckpointDone(s: State): (r: State)
    requires s.phase.Checkpointing?
  {
    s.(phase := Deleting(s.phase.manifest, s.phase.ssts, s.phase.memtable, s.phase.gen))
  }

  function DoDeleteSegment(s: State, g: nat): (r: State) {
    s.(disk := s.disk.(wals := s.disk.wals - {g}))
  }

  function DoStart(s: State): (r: State)
    requires s.phase.Deleting? && s.phase.gen in s.disk.wals
  {
    var p := s.phase;
    s.(phase := Running(Engine(p.memtable, [], p.ssts, p.gen, p.manifest, FlushIdle, CompactIdle, map[], map[])),
       base := |s.hist|, ckpt := |s.disk.wals[p.gen].records|)
  }

  function Do(s: State, step: Step): (r: State)
    requires Enabled(s, step)
  {
    match step
    case LockedWrite(w) => DoWrite(s, w)
    case WalReachesDevice(n) => DoReachDevice(s, n)
    case CommitCall(i) => DoCommitCall(s, i)
    case CommitReturn(i) => DoCommitReturn(s, i)
    case FlushPick => DoFlushPick(s)
    case FlushNumber => DoFlushNumber(s)
    case FlushWrite(size) => DoFlushWrite(s, size)
    case FlushWriteFails => DoFlushIdle(s)
    case FlushPublish => DoFlushPublish(s)
    case FlushPublishFails => DoFlushPublishFails(s)
    case FlushUnlink => DoFlushUnlink(s)
    case CompactSnapshot => DoCompactSnapshot(s)
    case CompactWrite(size) => DoCompactWrite(s, size)
    case CompactWriteFails => DoCompactIdle(s)
    case CompactPublish => DoCompactPublish(s)
    case CompactPublishFails(resaved) => DoCompactPublishFails(s, resaved)
    case CompactUnlink => DoCompactUnlink(s)
    case SaveManifest => DoSaveManifest(s)
    case Crash(cuts) => DoCrash(s, cuts)
    case Load => DoLoad(s)
    case RemoveOrphan(p) => DoRemoveOrphan(s, p)
    case ReplayLogs(order) => DoReplay(s, order)
    case CheckpointAppend => DoCheckpointAppend(s)
    case CheckpointDone => DoCheckpointDone(s)
    case DeleteSegment(g) => DoDeleteSegment(s, g)
    case Start => DoStart(s)
  }

  /** A new database directory: no manifest, no files, no log. */
  const INITIAL: State := State(Disk(map[], Manifest(0, map[]), map[]), Down, [], 0, 0, 0)

  /** The states a sequence of steps passes through; None when some step was not enabled. */
  function Run(s: State, steps: seq<Step>): (r: Option<State>) {
    if steps == [] then Some(s)
    else
      var p := Run(s, steps[..|steps|-1]);
      var step := steps[|steps|-1];
      if p.Some? && Enabled(p.value, step) then Some(Do(p.value, step)) else None
  }

  // ---- Room in the memtable ------------------------------------------------------------------------

  /** The memtable takes what the step puts into it. */
  ghost predicate HasRoom(s: State, step: Step) {
    match step
    case LockedWrite(w) => s.phase.Running? ==> Takes(s.phase.e.memtable, w.key)
    case ReplayLogs(_) => Holdable(Replay(s.disk.wals))
    case _ => true
  }

  /** The memtable takes what the step puts into it at this key. */
  ghost predicate HasRoomFor(k: Key, s: State, step: Step) {
    match step
    case LockedWrite(w) => s.phase.Running? && w.key == k ==> Takes(s.phase.e.memtable, k)
    case ReplayLogs(_) => k in Replay(s.disk.wals) ==> k in Refill(s.disk.wals)
    case _ => true
  }

  ghost function RoomFor(k: Key): (ok: (State, Step) -> bool) {
    (s: State, step: Step) => HasRoomFor(k, s, step)
  }

  /** Every step of the run is `ok` where it is taken. */
  ghost predicate AllAlong(s: State, steps: seq<Step>, ok: (State, Step) -> bool) {
    steps == []
    || (AllAlong(s, steps[..|steps| - 1], ok)
        && (Run(s, steps[..|steps| - 1]).Some? ==> ok(Run(s, steps[..|steps| - 1]).value, steps[|steps| - 1])))
  }
}
