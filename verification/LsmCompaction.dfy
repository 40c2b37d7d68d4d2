/**
 Compaction: the run it selects, why merging that run preserves every lookup, why tombstones may be purged
 when the run is the complete snapshot, and why each of its steps keeps the invariant.
 */
module LsmCompaction {
  import opened Values
  import opened Layers
  import opened Manifests
  import opened LsmStates
  import opened LsmInvariants
  import opened LsmThreads

  // ---- Selection -----------------------------------------------------------------------------------

  /** FANOUT neighbouring files of one size tier, starting at q. */
  ghost predicate RunOfOneTier(ssts: seq<Sst>, q: nat) {
    q + FANOUT <= |ssts| && forall j | q <= j < q + FANOUT :: SizeTier(ssts[j].size) == SizeTier(ssts[q].size)
  }

  function Pow4(t: nat): (n: nat)
    ensures n > 0
  {
    if t == 0 then 1 else 4 * Pow4(t - 1)
  }

  lemma {:induction false} TierIff(units: nat, t: nat)
    requires units > 0
    ensures TierOfUnits(units) == t <==> Pow4(t) <= units < Pow4(t + 1)
  {
    assert Pow4(1) == 4;
    if units >= 4 && t > 0 {
      TierIff(units / 4, t - 1);
    } else if units < 4 && t > 0 {
      assert Pow4(t) >= 4;
    }
  }

  /** Tier t holds the files of 4^t up to 4^(t+1) units of one mebibyte, a unit begun counting in full. */
  lemma SizeTierIff(bytes: nat, t: nat)
    ensures SizeTier(bytes) == t
       <==> (t == 0 || (Pow4(t) - 1) * 1048576 < bytes) && bytes <= (Pow4(t + 1) - 1) * 1048576
  {
    hide Pow4, TierOfUnits;
    var units := (bytes + 1048575) / 1048576;
    UnitsIff(bytes, Pow4(t));
    UnitsIff(bytes, Pow4(t + 1));
    TierIff(if units < 1 then 1 else units, t);
    PowersGrow(t);
  }

  lemma UnitsIff(bytes: nat, n: nat)
    requires n > 0
    ensures n <= (bytes + 1048575) / 1048576 <==> (n - 1) * 1048576 < bytes
  {
  }

  lemma PowersGrow(t: nat)
    ensures Pow4(0) == 1 && (t > 0 ==> Pow4(t) > 1) && Pow4(t + 1) > 1
  {
  }

  lemma {:induction false} ScanFinds(ssts: seq<Sst>, i: int, len: nat)
    requires -1 <= i < |ssts| && len < FANOUT && i + len < |ssts|
    requires i + 1 < |ssts| ==> len > 0
    requires forall j | i < j <= i + len :: SizeTier(ssts[j].size) == SizeTier(ssts[i + 1].size)
    requires i + len + 1 < |ssts| ==> SizeTier(ssts[i + len + 1].size) != SizeTier(ssts[i + 1].size)
    requires forall q: nat | i < q :: !RunOfOneTier(ssts, q)
    ensures var r := ScanRun(ssts, i, len);
            && (r.Some? ==> RunOfOneTier(ssts, r.value) && forall q: nat | r.value < q :: !RunOfOneTier(ssts, q))
            && (r.None? ==> forall q: nat :: !RunOfOneTier(ssts, q))
    decreases i + 1
  {
    if i >= 0 {
      var same := len > 0 && SizeTier(ssts[i].size) == SizeTier(ssts[i + 1].size);
      var len' := if same then len + 1 else 1;
      if len' == FANOUT {
        assert RunOfOneTier(ssts, i);
      } else {
        assert !RunOfOneTier(ssts, i) by {
          if i + FANOUT <= |ssts| {
            assert i + len' < i + FANOUT;
            assert SizeTier(ssts[i + len'].size) != SizeTier(ssts[i].size);
          }
        }
        ScanFinds(ssts, i - 1, len');
      }
    }
  }

  /** compact() takes the oldest run of four neighbouring files of one tier, and misses none. */
  lemma SelectRunIsOldest(ssts: seq<Sst>)
    ensures var r := SelectRun(ssts);
            && (r.Some? ==> RunOfOneTier(ssts, r.value) && forall q: nat | r.value < q :: !RunOfOneTier(ssts, q))
            && (r.None? ==> forall q: nat :: !RunOfOneTier(ssts, q))
  {
    if |ssts| >= FANOUT {
      ScanFinds(ssts, |ssts| - 1, 0);
    }
  }

  // ---- Merging -------------------------------------------------------------------------------------

  lemma {:induction false} SstLayersAppend(a: seq<Sst>, b: seq<Sst>)
    ensures SstLayers(a + b) == SstLayers(a) + SstLayers(b)
  {
    if a == [] {
      assert a + b == b;
    } else {
      assert (a + b)[1..] == a[1..] + b;
      SstLayersAppend(a[1..], b);
    }
  }

  lemma SplitStack(pre: seq<Sst>, mid: seq<Sst>, post: seq<Sst>)
    ensures Base(pre + mid + post)
         == Apply(Apply(Base(post), Stack(SstLayers(mid))), Stack(SstLayers(pre)))
  {
    SstLayersAppend(pre + mid, post);
    SstLayersAppend(pre, mid);
    StackAppend(SstLayers(pre) + SstLayers(mid), SstLayers(post));
    StackAppend(SstLayers(pre), SstLayers(mid));
    var a, b, c := Stack(SstLayers(post)), Stack(SstLayers(mid)), Stack(SstLayers(pre));
    ApplyMerge(map[], a, b + c);
    ApplyMerge(Apply(map[], a), b, c);
  }

  /** Replacing a run by its merge leaves the store as it was; purging needs the run to reach the bottom. */
  lemma MergePreservesStore(pre: seq<Sst>, inputs: seq<Sst>, post: seq<Sst>, complete: bool, sst: Sst)
    requires sst.entries == MergedEntries(inputs, complete) && (complete ==> post == [])
    ensures Base(pre + [sst] + post) == Base(pre + inputs + post)
  {
    SplitStack(pre, inputs, post);
    SplitStack(pre, [sst], post);
    assert SstLayers([sst]) == [sst.entries];
    StackOne(sst.entries);
    if complete {
      assert Base([]) == map[];
      PurgeAtBottom(Stack(SstLayers(inputs)));
    }
  }

  /** Some file older than the run has a live item that only a tombstone of the run hides. */
  ghost predicate Resurfaces(pre: seq<Sst>, inputs: seq<Sst>, post: seq<Sst>, k: Key) {
    var merged := Stack(SstLayers(inputs));
    k in merged && merged[k].deleted && k !in Stack(SstLayers(pre)) && k in Base(post)
  }

  /** Whatever lies above and below the run, its tombstones may be dropped exactly when none of them hides anything. */
  lemma PurgeSoundIff(pre: seq<Sst>, inputs: seq<Sst>, post: seq<Sst>, sst: Sst)
    requires sst.entries == Purge(Stack(SstLayers(inputs)))
    ensures Base(pre + [sst] + post) == Base(pre + inputs + post)
            <==> forall k: Key :: !Resurfaces(pre, inputs, post, k)
  {
    hide Stack, SstLayers, Base;
    SplitStack(pre, inputs, post);
    SplitStack(pre, [sst], post);
    OneFile(sst);
    PurgeUnder(Base(post), Stack(SstLayers(inputs)), Stack(SstLayers(pre)));
    assert forall k: Key :: Resurfaces(pre, inputs, post, k) <==>
      (k in Stack(SstLayers(inputs)) && Stack(SstLayers(inputs))[k].deleted && k !in Stack(SstLayers(pre))
          && k in Base(post));
  }

  lemma OneFile(sst: Sst)
    ensures Stack(SstLayers([sst])) == sst.entries
  {
    assert SstLayers([sst]) == [sst.entries];
    StackOne(sst.entries);
  }

  lemma PurgedAt(below: Store, merged: Layer, above: Layer, k: Key)
    ensures Find(Apply(Apply(below, Purge(merged)), above), k) == Find(Apply(Apply(below, merged), above), k)
       <==> !(k in merged && merged[k].deleted && k !in above && k in below)
  {
    hide Apply;
    FindApplied(Apply(below, Purge(merged)), above, k);
    FindApplied(Apply(below, merged), above, k);
    FindApplied(below, Purge(merged), k);
    FindApplied(below, merged, k);
  }

  lemma PurgeUnder(below: Store, merged: Layer, above: Layer)
    ensures Apply(Apply(below, Purge(merged)), above) == Apply(Apply(below, merged), above)
       <==> forall k: Key :: !(k in merged && merged[k].deleted && k !in above && k in below)
  {
    hide Apply, Purge, Find;
    var purged, kept := Apply(Apply(below, Purge(merged)), above), Apply(Apply(below, merged), above);
    forall k: Key
      ensures Find(purged, k) == Find(kept, k) <==> !(k in merged && merged[k].deleted && k !in above && k in below)
    {
      PurgedAt(below, merged, above, k);
    }
    if forall k: Key :: !(k in merged && merged[k].deleted && k !in above && k in below) {
      SameFinds(purged, kept);
    }
  }

  /** Over an older file, for one, a purged tombstone brings a deleted item back. */
  lemma PurgeNeedsTheBottom(k: Key, item: Item)
    ensures var older := Sst(Flushed(0), map[k := Entry(item, false)], 0);
            var newer := Sst(Flushed(1), map[k := Entry(map[], true)], 0);
            var purged := Sst(Compacted(2), Purge(newer.entries), 0);
            k !in Base([newer, older]) && k in Base([purged, older])
  {
    var older := Sst(Flushed(0), map[k := Entry(item, false)], 0);
    var newer := Sst(Flushed(1), map[k := Entry(map[], true)], 0);
    var purged := Sst(Compacted(2), Purge(newer.entries), 0);
    assert SstLayers([older]) == [older.entries];
    StackOne(older.entries);
    BasePush(newer, [older]);
    BasePush(purged, [older]);
    assert [newer] + [older] == [newer, older] && [purged] + [older] == [purged, older];
  }

  // ---- Publication ---------------------------------------------------------------------------------

  lemma {:induction false} PathsOfAt(metas: seq<Meta>)
    ensures |PathsOf(metas)| == |metas| && forall i | 0 <= i < |metas| :: PathsOf(metas)[i] == metas[i].path
  {
    if metas != [] {
      PathsOfAt(metas[1..]);
    }
  }

  lemma {:induction false} MaxSeqnoOfRun(metas: seq<Meta>)
    requires StrictlyDescending(metas) && metas != []
    ensures MaxSeqno(metas) == metas[0].seqno
  {
    if |metas| > 1 {
      MaxSeqnoOfRun(metas[1..]);
    }
  }

  lemma {:induction false} SpliceKept(ssts: seq<Sst>, obsolete: seq<Path>, sst: Sst)
    requires forall i | 0 <= i < |ssts| :: ssts[i].path !in obsolete
    ensures Splice(ssts, obsolete, sst, true) == ssts
  {
    if ssts != [] {
      SpliceKept(ssts[1..], obsolete, sst);
    }
  }

  lemma {:induction false} SpliceDropped(run: seq<Sst>, post: seq<Sst>, obsolete: seq<Path>, sst: Sst)
    requires forall i | 0 <= i < |run| :: run[i].path in obsolete
    requires forall i | 0 <= i < |post| :: post[i].path !in obsolete
    ensures Splice(run + post, obsolete, sst, true) == post
  {
    if run == [] {
      assert run + post == post;
      SpliceKept(post, obsolete, sst);
    } else {
      assert (run + post)[1..] == run[1..] + post;
      SpliceDropped(run[1..], post, obsolete, sst);
    }
  }

  /** The publish loop puts the output exactly where the run was. */
  lemma {:induction false} SpliceRun(pre: seq<Sst>, run: seq<Sst>, post: seq<Sst>, obsolete: seq<Path>, sst: Sst)
    requires run != [] && forall i | 0 <= i < |run| :: run[i].path in obsolete
    requires forall i | 0 <= i < |pre| :: pre[i].path !in obsolete
    requires forall i | 0 <= i < |post| :: post[i].path !in obsolete
    ensures Splice(pre + run + post, obsolete, sst, false) == pre + [sst] + post
  {
    if pre == [] {
      assert pre + run + post == run + post;
      assert (run + post)[0] == run[0] && (run + post)[1..] == run[1..] + post;
      SpliceDropped(run[1..], post, obsolete, sst);
    } else {
      assert (pre + run + post)[1..] == pre[1..] + run + post;
      SpliceRun(pre[1..], run, post, obsolete, sst);
    }
  }

  ghost predicate Mergeable(s: State) {
    Shaped(s) && s.phase.e.compact.CompactWritten?
  }

  /** Where the run sits now, however many files were published in front of it since the snapshot. */
  ghost predicate RunHere(e: Engine, i: nat) {
    && e.compact.CompactWritten?
    && RunAt(e, e.compact.inputs, e.compact.metas, e.compact.complete, i)
  }

  lemma WhereIsTheRun(s: State) returns (i: nat)
    requires Mergeable(s)
    ensures RunHere(s.phase.e, i)
  {
    hide Catalogued, FlushOk, Order;
    var e := s.phase.e;
    i :| RunAt(e, e.compact.inputs, e.compact.metas, e.compact.complete, i);
  }

  lemma OutputFacts(s: State)
    requires Mergeable(s)
    ensures var e := s.phase.e;
            && e.compact.sst.path == Compacted(e.compact.number) && e.compact.number < e.manifest.next
            && e.compact.sst.entries == MergedEntries(e.compact.inputs, e.compact.complete)
            && e.compact.sst.path in s.disk.files && s.disk.files[e.compact.sst.path] == e.compact.sst
            && FreshPath(Order(e.manifest), e.compact.sst.path)
  {
    hide Catalogued, FlushOk, Order, RunAt;
  }

  lemma CatalogueFacts(s: State)
    requires Shaped(s)
    ensures var e := s.phase.e;
            && Sound(e.manifest) && |e.ssts| == |Order(e.manifest)|
            && AllPresent(Order(e.manifest), s.disk.files)
            && e.ssts == Opened(Order(e.manifest), s.disk.files)
            && forall i | 0 <= i < |e.ssts| :: e.ssts[i].path == Order(e.manifest)[i].path
  {
    hide FlushOk, CompactOk, Order, Sound;
  }

  /** A list cut around the run at i. */
  function Before<T>(s: seq<T>, i: nat): (r: seq<T>)
    requires i <= |s|
  {
    s[..i]
  }

  function After<T>(s: seq<T>, i: nat): (r: seq<T>)
    requires i + FANOUT <= |s|
  {
    s[i + FANOUT..]
  }

  lemma Cut<T>(s: seq<T>, i: nat)
    requires i + FANOUT <= |s|
    ensures s == Before(s, i) + s[i..i + FANOUT] + After(s, i)
  {
  }

  lemma SpliceByPath(ssts: seq<Sst>, o: seq<Meta>, metas: seq<Meta>, i: nat, sst: Sst)
    requires i + FANOUT <= |ssts| == |o| && metas == o[i..i + FANOUT]
    requires DistinctPaths(o) && forall j | 0 <= j < |o| :: ssts[j].path == o[j].path
    ensures Splice(ssts, PathsOf(metas), sst, false) == Before(ssts, i) + [sst] + After(ssts, i)
  {
    var run := ssts[i..i + FANOUT];
    PathsOfAt(metas);
    Cut(ssts, i);
    forall j | 0 <= j < |run| ensures run[j].path in PathsOf(metas) {
      assert run[j].path == o[i + j].path == PathsOf(metas)[j];
    }
    assert forall k | 0 <= k < |metas| :: PathsOf(metas)[k] == o[i + k].path;
    SpliceRun(Before(ssts, i), run, After(ssts, i), PathsOf(metas), sst);
  }

  lemma RunSplices(s: State, i: nat)
    requires Mergeable(s) && RunHere(s.phase.e, i)
    ensures DoCompactPublish(s).phase.e.ssts
         == Before(s.phase.e.ssts, i) + [s.phase.e.compact.sst] + After(s.phase.e.ssts, i)
  {
    CatalogueFacts(s);
    hide Shaped, Order, Splice;
    var e := s.phase.e;
    SpliceByPath(e.ssts, Order(e.manifest), e.compact.metas, i, e.compact.sst);
  }

  lemma RunOrders(s: State, i: nat)
    requires Mergeable(s) && RunHere(s.phase.e, i)
    ensures var e, x := s.phase.e, OutputMeta(s.phase.e.compact.metas, s.phase.e.compact.sst);
            var m' := DoCompactPublish(s).phase.e.manifest;
            && Order(m') == Before(Order(e.manifest), i) + [x] + After(Order(e.manifest), i)
            && Sound(m') && m'.next == e.manifest.next
            && x.seqno == Order(e.manifest)[i].seqno
  {
    CatalogueFacts(s);
    OutputFacts(s);
    hide Shaped, Order;
    var e := s.phase.e;
    var o, metas := Order(e.manifest), e.compact.metas;
    assert StrictlyDescending(metas) by {
      assert StrictlyDescending(o);
      assert forall j | 0 <= j < |metas| :: metas[j] == o[i + j];
    }
    MaxSeqnoOfRun(metas);
    Cut(o, i);
    PublishCompaction(e.manifest, Before(o, i), metas, After(o, i), OutputMeta(metas, e.compact.sst));
    RemoveRun(e.manifest, Before(o, i), metas, After(o, i));
  }

  lemma PublishedCatalogue(s: State, i: nat)
    requires Mergeable(s) && RunHere(s.phase.e, i)
    ensures var s' := DoCompactPublish(s);
            Catalogued(s'.disk.manifest, s'.disk.files, s'.phase.e.manifest, s'.phase.e.ssts)
  {
    CatalogueFacts(s);
    OutputFacts(s);
    RunSplices(s, i);
    RunOrders(s, i);
    hide Shaped, Order, Sound, Splice, RunAt;
    var e, s' := s.phase.e, DoCompactPublish(s);
    var o, o' := Order(e.manifest), Order(s'.phase.e.manifest);
    OpenedSpliced(o, o', s.disk.files, i, OutputMeta(e.compact.metas, e.compact.sst), e.compact.sst);
  }

  lemma OpenedSpliced(o: seq<Meta>, o': seq<Meta>, files: map<Path, Sst>, i: nat, x: Meta, sst: Sst)
    requires AllPresent(o, files) && i + FANOUT <= |o| && o' == Before(o, i) + [x] + After(o, i)
    requires x.path == sst.path && x.path in files && files[x.path] == sst
    ensures AllPresent(o', files)
    ensures Opened(o', files) == Before(Opened(o, files), i) + [sst] + After(Opened(o, files), i)
  {
    forall j | 0 <= j < |o'|
      ensures o'[j] == if j < i then o[j] else if j == i then x else o[j + FANOUT - 1]
    {
    }
  }

  lemma PublishedStore(s: State, i: nat)
    requires Mergeable(s) && RunHere(s.phase.e, i)
    ensures Base(DoCompactPublish(s).phase.e.ssts) == Base(s.phase.e.ssts)
  {
    RunSplices(s, i);
    OutputFacts(s);
    hide Shaped, Order, Base, Splice;
    var e := s.phase.e;
    Cut(e.ssts, i);
    MergePreservesStore(Before(e.ssts, i), e.compact.inputs, After(e.ssts, i), e.compact.complete, e.compact.sst);
  }

  /** What replacing the run at i by x does to the catalogue. */
  ghost predicate Replaced(o: seq<Meta>, o': seq<Meta>, i: nat, x: Meta) {
    i + FANOUT <= |o| && o' == Before(o, i) + [x] + After(o, i)
  }

  lemma ReplacedAt(o: seq<Meta>, o': seq<Meta>, i: nat, x: Meta, j: nat)
    requires Replaced(o, o', i, x) && j < |o'|
    ensures j == i ==> o'[j] == x
    ensures j != i ==> exists k :: 0 <= k < |o| && !(i <= k < i + FANOUT) && o[k] == o'[j]
  {
    if j < i {
      assert o[j] == o'[j];
    } else if j > i {
      assert o[j + FANOUT - 1] == o'[j];
    }
  }

  lemma NumberStillTops(o: seq<Meta>, o': seq<Meta>, i: nat, x: Meta, n: nat)
    requires Replaced(o, o', i, x) && x.path.Compacted? && x.seqno == o[i].seqno
    requires FreshPath(o, Flushed(n)) && forall j | 0 <= j < |o| :: o[j].seqno < n
    ensures FreshPath(o', Flushed(n)) && forall j | 0 <= j < |o'| :: o'[j].seqno < n
  {
    forall j | 0 <= j < |o'| ensures o'[j].path != Flushed(n) && o'[j].seqno < n {
      ReplacedAt(o, o', i, x, j);
    }
  }

  lemma InputsLeave(o: seq<Meta>, o': seq<Meta>, i: nat, x: Meta, k: nat)
    requires Replaced(o, o', i, x) && DistinctPaths(o) && FreshPath(o, x.path) && i <= k < i + FANOUT
    ensures FreshPath(o', o[k].path)
  {
    forall j | 0 <= j < |o'| ensures o'[j].path != o[k].path {
      ReplacedAt(o, o', i, x, j);
    }
  }

  /** The flush thread's number still tops every catalogued one. */
  lemma PublishedFlush(s: State, i: nat)
    requires Mergeable(s) && RunHere(s.phase.e, i)
    ensures FlushOk(s.disk.files, DoCompactPublish(s).phase.e)
  {
    hide Shaped, Order, Sound, Splice, FreshPath;
    ShapedCatalogue(s);
    RunOrders(s, i);
    OutputFacts(s);
    FlushFacts(s);
    var e, e' := s.phase.e, DoCompactPublish(s).phase.e;
    if e.flush.FlushNumbered? || e.flush.FlushWritten? {
      NumberStillTops(Order(e.manifest), Order(e'.manifest), i, OutputMeta(e.compact.metas, e.compact.sst),
          e.flush.number);
    }
  }

  lemma FlushFacts(s: State)
    requires Shaped(s)
    ensures FlushOk(s.disk.files, s.phase.e)
  {
    hide Catalogued, CompactOk, Order, FlushOk;
  }

  lemma ShapedCatalogue(s: State)
    requires Shaped(s)
    ensures IsRunning(s) && Catalogued(s.disk.manifest, s.disk.files, s.phase.e.manifest, s.phase.e.ssts)
  {
    hide Catalogued, CompactOk, FlushOk;
  }

  lemma NumberIsFresh(s: State)
    requires Shaped(s)
    ensures s.phase.e.flush.FlushNumbered? || s.phase.e.flush.FlushWritten? ==>
              FreshPath(Order(s.phase.e.manifest), Flushed(s.phase.e.flush.number))
  {
    hide Catalogued, CompactOk, Order;
  }

  lemma InputsObsolete(e: Engine, e': Engine, metas: seq<Meta>, i: nat, x: Meta)
    requires GoodOrder(Order(e.manifest), e.manifest.next) && Replaced(Order(e.manifest), Order(e'.manifest), i, x)
    requires FreshPath(Order(e.manifest), x.path) && metas == Order(e.manifest)[i..i + FANOUT]
    requires e'.flush == e.flush && e'.manifest.next == e.manifest.next
    requires e.flush.FlushNumbered? || e.flush.FlushWritten? ==> FreshPath(Order(e.manifest), Flushed(e.flush.number))
    ensures forall k | 0 <= k < |PathsOf(metas)| :: Obsolete(e', PathsOf(metas)[k])
  {
    var o := Order(e.manifest);
    assert i + FANOUT <= |o|;
    hide Order, FreshPath, Replaced;
    PathsOfAt(metas);
    forall k | 0 <= k < |metas| ensures Obsolete(e', PathsOf(metas)[k]) {
      assert PathsOf(metas)[k] == o[i + k].path;
      InputsLeave(o, Order(e'.manifest), i, x, i + k);
      if e.flush.FlushNumbered? || e.flush.FlushWritten? {
        FreshAt(o, Flushed(e.flush.number), i + k);
      }
    }
  }

  /** The inputs leave the catalogue, so deleting their files loses nothing. */
  lemma PublishedObsolete(s: State, i: nat)
    requires Mergeable(s) && RunHere(s.phase.e, i)
    ensures CompactOk(s.disk.files, DoCompactPublish(s).phase.e)
  {
    hide Shaped, Order, Splice, FreshPath, AllPresent, Opened, GoodOrder, Obsolete;
    ShapedCatalogue(s);
    CatalogueFacts(s);
    RunOrders(s, i);
    OutputFacts(s);
    NumberIsFresh(s);
    var e, e' := s.phase.e, DoCompactPublish(s).phase.e;
    InputsObsolete(e, e', e.compact.metas, i, OutputMeta(e.compact.metas, e.compact.sst));
  }

  lemma FreshAt(o: seq<Meta>, p: Path, k: nat)
    requires FreshPath(o, p) && k < |o|
    ensures o[k].path != p
  {
  }

  lemma PublishedBase(s: State)
    requires Mergeable(s)
    ensures IsRunning(DoCompactPublish(s)) && Base(DoCompactPublish(s).phase.e.ssts) == Base(s.phase.e.ssts)
  {
    hide Mergeable, RunHere, Base, Splice;
    var i := WhereIsTheRun(s);
    PublishedStore(s, i);
  }

  lemma CompactPublishShapes(s: State)
    requires Mergeable(s)
    ensures Shaped(DoCompactPublish(s))
  {
    hide Shaped, Catalogued, FlushOk, CompactOk, Order, Base, Splice, RunAt;
    ShapedCatalogue(s);
    var i := WhereIsTheRun(s);
    PublishedCatalogue(s, i);
    PublishedFlush(s, i);
    PublishedObsolete(s, i);
    MakesShaped(DoCompactPublish(s));
  }

  // ---- The other steps -----------------------------------------------------------------------------

  lemma RunInBounds(s: State)
    requires Shaped(s) && SelectRun(s.phase.e.ssts).Some?
    ensures SelectRun(s.phase.e.ssts).value + FANOUT <= |s.phase.e.ssts| == |Order(s.phase.e.manifest)|
  {
    CatalogueFacts(s);
    hide Shaped, Order, SelectRun, Sound;
    SelectRunIsOldest(s.phase.e.ssts);
  }

  lemma SnapshotCatalogue(s: State)
    requires Shaped(s) && SelectRun(s.phase.e.ssts).Some?
    requires SelectRun(s.phase.e.ssts).value + FANOUT <= |s.phase.e.ssts| == |Order(s.phase.e.manifest)|
    ensures var e' := DoCompactSnapshot(s).phase.e;
            && Catalogued(s.disk.manifest, s.disk.files, e'.manifest, e'.ssts)
            && Order(e'.manifest) == Order(s.phase.e.manifest)
  {
    hide Shaped, Catalogued, Order, SelectRun;
    ShapedCatalogue(s);
    var e := s.phase.e;
    CataloguedNext(s.disk.manifest, s.disk.files, e.manifest, e.ssts, e.manifest.next + 1);
  }

  lemma SnapshotRun(s: State)
    requires Shaped(s) && SelectRun(s.phase.e.ssts).Some?
    requires SelectRun(s.phase.e.ssts).value + FANOUT <= |s.phase.e.ssts| == |Order(s.phase.e.manifest)|
    ensures CompactOk(s.disk.files, DoCompactSnapshot(s).phase.e)
  {
    CatalogueFacts(s);
    SnapshotCatalogue(s);
    hide Shaped, Catalogued, Order, SelectRun;
    var e, e' := s.phase.e, DoCompactSnapshot(s).phase.e;
    assert RunAt(e', e'.compact.inputs, e'.compact.metas, e'.compact.complete, SelectRun(e.ssts).value);
    assert FreshPath(Order(e'.manifest), Compacted(e.manifest.next));
  }

  lemma SameFlush(files: map<Path, Sst>, files': map<Path, Sst>, e: Engine, e': Engine)
    requires FlushOk(files, e) && e'.flush == e.flush && e'.frozen == e.frozen
    requires Order(e'.manifest) == Order(e.manifest) && e.manifest.next <= e'.manifest.next
    requires e.flush.FlushWritten? ==> e.flush.sst.path in files' && files'[e.flush.sst.path] == e.flush.sst
    ensures FlushOk(files', e')
  {
    hide Order;
  }

  lemma FlushedFile(s: State)
    requires Shaped(s)
    ensures s.phase.e.flush.FlushWritten? ==>
              && s.phase.e.flush.sst.path == Flushed(s.phase.e.flush.number)
              && s.phase.e.flush.sst.path in s.disk.files
                  && s.disk.files[s.phase.e.flush.sst.path] == s.phase.e.flush.sst
  {
    hide Catalogued, CompactOk, Order;
  }

  lemma CompactSnapshotShapes(s: State)
    requires Shaped(s) && s.phase.e.compact.CompactIdle? && SelectRun(s.phase.e.ssts).Some?
    ensures SelectRun(s.phase.e.ssts).value + FANOUT <= |s.phase.e.ssts| == |Order(s.phase.e.manifest)|
    ensures Shaped(DoCompactSnapshot(s))
  {
    hide Shaped, Catalogued, CompactOk, FlushOk, Order, Base, SelectRun;
    ShapedCatalogue(s);
    RunInBounds(s);
    SnapshotCatalogue(s);
    SnapshotRun(s);
    FlushFacts(s);
    FlushedFile(s);
    SameFlush(s.disk.files, s.disk.files, s.phase.e, DoCompactSnapshot(s).phase.e);
    MakesShaped(DoCompactSnapshot(s));
  }

  lemma CompactWriteFacts(s: State, size: nat)
    requires Shaped(s) && s.phase.e.compact.CompactMerging?
    ensures FreshPath(Order(s.phase.e.manifest), Compacted(s.phase.e.compact.number))
    ensures CompactOk(DoCompactWrite(s, size).disk.files, DoCompactWrite(s, size).phase.e)
  {
    hide Catalogued, FlushOk, Order;
    var e, e' := s.phase.e, DoCompactWrite(s, size).phase.e;
    var i: nat :| RunAt(e, e.compact.inputs, e.compact.metas, e.compact.complete, i);
    assert RunAt(e', e.compact.inputs, e.compact.metas, e.compact.complete, i);
  }

  lemma CompactWriteShapes(s: State, size: nat)
    requires Shaped(s) && s.phase.e.compact.CompactMerging?
    ensures Shaped(DoCompactWrite(s, size))
  {
    hide Shaped, Catalogued, CompactOk, FlushOk, FreshPath, Order, Base;
    ShapedCatalogue(s);
    var e, s' := s.phase.e, DoCompactWrite(s, size);
    CompactWriteFacts(s, size);
    FlushFacts(s);
    FlushedFile(s);
    UnusedFile(s.disk.manifest, s.disk.files, e.manifest, e.ssts, Compacted(e.compact.number), s'.phase.e.compact.sst);
    SameFlush(s.disk.files, s'.disk.files, e, s'.phase.e);
    MakesShaped(DoCompactWrite(s, size));
  }

  lemma CompactIdleShapes(s: State)
    requires Shaped(s)
    ensures Shaped(DoCompactIdle(s))
  {
    hide Shaped, Catalogued, FlushOk, Base, Order;
    ShapedCatalogue(s);
    FlushFacts(s);
    FlushedFile(s);
    SameFlush(s.disk.files, s.disk.files, s.phase.e, DoCompactIdle(s).phase.e);
    MakesShaped(DoCompactIdle(s));
  }

  lemma CompactPublishFailsShapes(s: State, resaved: bool)
    requires Mergeable(s)
    ensures Shaped(DoCompactPublishFails(s, resaved))
  {
    hide Shaped, Catalogued, Base, Order, Undo, RunAt, FlushOk, FreshPath;
    ShapedCatalogue(s);
    var i := WhereIsTheRun(s);
    UndoneCatalogue(s, i, resaved);
    FlushFacts(s);
    FlushedFile(s);
    OutputFacts(s);
    var s' := DoCompactPublishFails(s, resaved);
    SameFlush(s.disk.files, s'.disk.files, s.phase.e, s'.phase.e);
    MakesShaped(DoCompactPublishFails(s, resaved));
  }

  lemma UndoneCatalogue(s: State, i: nat, resaved: bool)
    requires Mergeable(s) && RunHere(s.phase.e, i)
    ensures var s' := DoCompactPublishFails(s, resaved);
            && Catalogued(s'.disk.manifest, s'.disk.files, s'.phase.e.manifest, s'.phase.e.ssts)
            && Order(s'.phase.e.manifest) == Order(s.phase.e.manifest)
                && s'.phase.e.manifest.next == s.phase.e.manifest.next
  {
    hide Shaped, Order, Sound, Catalogued;
    ShapedCatalogue(s);
    CatalogueFacts(s);
    OutputFacts(s);
    RunOrders(s, i);
    var e, s' := s.phase.e, DoCompactPublishFails(s, resaved);
    var o, metas := Order(e.manifest), e.compact.metas;
    Cut(o, i);
    UndoCompaction(e.manifest, Before(o, i), metas, After(o, i), OutputMeta(metas, e.compact.sst));
    UnusedFile(s.disk.manifest, s.disk.files, e.manifest, e.ssts, e.compact.sst.path, e.compact.sst);
    CataloguedSame(s.disk.manifest, s'.disk.files, e.manifest, s'.phase.e.manifest, e.ssts);
  }

  lemma UnlinkFacts(s: State)
    requires Shaped(s) && s.phase.e.compact.CompactPublished? && s.phase.e.compact.obsolete != []
    ensures Obsolete(s.phase.e, s.phase.e.compact.obsolete[0])
    ensures CompactOk(DoCompactUnlink(s).disk.files, DoCompactUnlink(s).phase.e)
  {
    hide Catalogued, FlushOk, Order;
    var e, e' := s.phase.e, DoCompactUnlink(s).phase.e;
    forall i | 0 <= i < |e'.compact.obsolete| ensures Obsolete(e', e'.compact.obsolete[i]) {
      assert Obsolete(e, e.compact.obsolete[i + 1]);
    }
  }

  lemma CompactUnlinkShapes(s: State)
    requires Shaped(s) && s.phase.e.compact.CompactPublished?
    ensures Shaped(DoCompactUnlink(s))
  {
    hide Shaped, Catalogued;
    ShapedCatalogue(s);
    if s.phase.e.compact.obsolete == [] {
      CompactIdleShapes(s);
    } else {
      UnlinkOneShapes(s);
    }
  }

  lemma UnlinkOneShapes(s: State)
    requires Shaped(s) && s.phase.e.compact.CompactPublished? && s.phase.e.compact.obsolete != []
    ensures Shaped(DoCompactUnlink(s))
  {
    hide Shaped, Catalogued, CompactOk, FlushOk, Order, Base;
    ShapedCatalogue(s);
    var e, s' := s.phase.e, DoCompactUnlink(s);
    UnlinkFacts(s);
    FlushFacts(s);
    FlushedFile(s);
    UnusedFile(s.disk.manifest, s.disk.files, e.manifest, e.ssts, e.compact.obsolete[0], Sst(Flushed(0), map[], 0));
    SameFlush(s.disk.files, s'.disk.files, e, s'.phase.e);
    MakesShaped(DoCompactUnlink(s));
  }

  lemma CompactFacts(s: State)
    requires Shaped(s)
    ensures CompactOk(s.disk.files, s.phase.e)
  {
    hide Catalogued, CompactOk, FlushOk;
  }

  lemma SaveManifestShapes(s: State)
    requires Shaped(s)
    ensures Shaped(DoSaveManifest(s))
  {
    hide Shaped, CompactOk, FlushOk, Base, Order;
    ShapedCatalogue(s);
    FlushFacts(s);
    CompactFacts(s);
    MakesShaped(DoSaveManifest(s));
  }
}
