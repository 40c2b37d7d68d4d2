/**
 The durable catalogue of SSTables (src/engine/lsm/manifest.cpp) and the order a restart rebuilds from it
 (LsmEngine::load_sstables_from_manifest).
 */
module Manifests {

  /** "table_<n>.sst" for a flush output, "table_<n>_c.sst" for a compaction output. */
  datatype Path = Flushed(n: nat) | Compacted(n: nat)

  datatype Meta = Meta(path: Path, level: nat, seqno: nat)

  datatype Manifest = Manifest(next: nat, levels: map<nat, seq<Meta>>)

  const LEVELS: nat := 16

  function LevelFiles(m: Manifest, level: nat): (r: seq<Meta>) {
    if level in m.levels then m.levels[level] else []
  }

  function AddFile(m: Manifest, level: nat, x: Meta): (r: Manifest) {
    m.(levels := m.levels[level := LevelFiles(m, level) + [x]])
  }

  function Without(s: seq<Meta>, p: Path): (r: seq<Meta>) {
    if s == [] then [] else (if s[0].path == p then [] else [s[0]]) + Without(s[1..], p)
  }

  function RemoveFile(m: Manifest, level: nat, p: Path): (r: Manifest) {
    m.(levels := m.levels[level := Without(LevelFiles(m, level), p)])
  }

  function FilesOf(m: Manifest, levels: seq<nat>): (r: seq<Meta>) {
    if levels == [] then [] else LevelFiles(m, levels[0]) + FilesOf(m, levels[1..])
  }

  /** The metadata gathered level by level, as both load and compact do. */
  function AllFiles(m: Manifest): (r: seq<Meta>) {
    FilesOf(m, seq(LEVELS, i => i))
  }

  /** Every metadata record sits in the level it names, among the levels that a restart reads. */
  ghost predicate WellLevelled(m: Manifest) {
    forall level, i | level in m.levels && 0 <= i < |m.levels[level]| ::
      m.levels[level][i].level == level < LEVELS
  }

  predicate StrictlyDescending(s: seq<Meta>) {
    forall i, j | 0 <= i < j < |s| :: s[i].seqno > s[j].seqno
  }

  predicate Descending(s: seq<Meta>) {
    forall i, j | 0 <= i < j < |s| :: s[i].seqno >= s[j].seqno
  }

  predicate DistinctPaths(s: seq<Meta>) {
    forall i, j | 0 <= i < j < |s| :: s[i].path != s[j].path
  }

  function Insert(x: Meta, s: seq<Meta>): (r: seq<Meta>) {
    if s == [] || x.seqno >= s[0].seqno then [x] + s else [s[0]] + Insert(x, s[1..])
  }

  /** std::sort by descending sequence number. */
  function SortDescending(s: seq<Meta>): (r: seq<Meta>) {
    if s == [] then [] else Insert(s[0], SortDescending(s[1..]))
  }

  /** The newest-first order a restart opens the files in. */
  function Order(m: Manifest): (r: seq<Meta>) {
    SortDescending(AllFiles(m))
  }

  lemma {:induction false} InsertPermutes(x: Meta, s: seq<Meta>)
    ensures multiset(Insert(x, s)) == multiset(s) + multiset{x}
  {
    if s == [] || x.seqno >= s[0].seqno {
    } else {
      InsertPermutes(x, s[1..]);
      assert s == [s[0]] + s[1..];
    }
  }

  lemma {:induction false} InsertSorts(x: Meta, s: seq<Meta>)
    requires Descending(s)
    ensures Descending(Insert(x, s))
  {
    if s == [] || x.seqno >= s[0].seqno {
    } else {
      InsertSorts(x, s[1..]);
      var t := Insert(x, s[1..]);
      forall i | 0 <= i < |t| ensures s[0].seqno >= t[i].seqno {
        InsertPermutes(x, s[1..]);
        assert t[i] in multiset(t);
        assert t[i] == x || t[i] in s[1..];
      }
    }
  }

  lemma {:induction false} SortSorts(s: seq<Meta>)
    ensures Descending(SortDescending(s))
    ensures multiset(SortDescending(s)) == multiset(s)
  {
    if s != [] {
      SortSorts(s[1..]);
      InsertSorts(s[0], SortDescending(s[1..]));
      InsertPermutes(s[0], SortDescending(s[1..]));
      assert s == [s[0]] + s[1..];
    }
  }

  /** Both lists start with the one record of the highest sequence number. */
  lemma SameHead(a: seq<Meta>, b: seq<Meta>)
    requires Descending(a) && StrictlyDescending(b) && a != [] && b != []
    requires a[0] in b && b[0] in a
    ensures a[0] == b[0]
  {
    var j :| 0 <= j < |b| && b[j] == a[0];
    var i :| 0 <= i < |a| && a[i] == b[0];
  }

  lemma TailMultiset(s: seq<Meta>)
    requires s != []
    ensures multiset(s[1..]) == multiset(s) - multiset{s[0]}
    ensures s[0] in multiset(s)
  {
    assert s == [s[0]] + s[1..];
  }

  lemma {:induction false} StrictOrderIsUnique(a: seq<Meta>, b: seq<Meta>)
    requires Descending(a) && StrictlyDescending(b)
    requires multiset(a) == multiset(b)
    ensures a == b
  {
    assert |a| == |b| by {
      assert |multiset(a)| == |a| && |multiset(b)| == |b|;
    }
    if a != [] {
      assert a[0] in b && b[0] in a by {
        TailMultiset(a);
        TailMultiset(b);
      }
      SameHead(a, b);
      assert multiset(a[1..]) == multiset(b[1..]) by {
        TailMultiset(a);
        TailMultiset(b);
      }
      StrictOrderIsUnique(a[1..], b[1..]);
      assert a == [a[0]] + a[1..] && b == [b[0]] + b[1..];
    }
  }

  /** Sorting any arrangement of a strictly descending list rebuilds that list. */
  lemma SortRebuilds(s: seq<Meta>, b: seq<Meta>)
    requires multiset(s) == multiset(b) && StrictlyDescending(b)
    ensures SortDescending(s) == b
  {
    SortSorts(s);
    StrictOrderIsUnique(SortDescending(s), b);
  }

  lemma {:induction false} FilesOfCounts(m: Manifest, levels: seq<nat>, y: Meta)
    requires WellLevelled(m)
    requires forall i, j | 0 <= i < j < |levels| :: levels[i] != levels[j]
    ensures multiset(FilesOf(m, levels))[y] == if y.level in levels then multiset(LevelFiles(m, y.level))[y] else 0
  {
    if levels != [] {
      FilesOfCounts(m, levels[1..], y);
      assert levels == [levels[0]] + levels[1..];
      if y.level != levels[0] {
        NotAtThisLevel(m, levels[0], y);
      }
    }
  }

  lemma NotAtThisLevel(m: Manifest, level: nat, y: Meta)
    requires WellLevelled(m) && y.level != level
    ensures multiset(LevelFiles(m, level))[y] == 0
  {
    assert y !in LevelFiles(m, level);
  }

  /** How often a record is catalogued: only its own level counts. */
  lemma AllFilesCounts(m: Manifest, y: Meta)
    requires WellLevelled(m)
    ensures multiset(AllFiles(m))[y] == multiset(LevelFiles(m, y.level))[y]
  {
    var levels := seq(LEVELS, i => i);
    FilesOfCounts(m, levels, y);
    assert y.level >= LEVELS ==> y !in LevelFiles(m, y.level);
    assert y.level < LEVELS ==> levels[y.level] == y.level;
  }

  lemma AddFileCounts(m: Manifest, x: Meta)
    requires WellLevelled(m) && x.level < LEVELS
    ensures WellLevelled(AddFile(m, x.level, x))
    ensures multiset(AllFiles(AddFile(m, x.level, x))) == multiset(AllFiles(m)) + multiset{x}
  {
    var m' := AddFile(m, x.level, x);
    AddKeepsLevels(m, x);
    forall y: Meta ensures multiset(AllFiles(m'))[y] == (multiset(AllFiles(m)) + multiset{x})[y] {
      AddFileCount(m, x, y);
    }
  }

  lemma AddKeepsLevels(m: Manifest, x: Meta)
    requires WellLevelled(m) && x.level < LEVELS
    ensures WellLevelled(AddFile(m, x.level, x))
  {
  }

  lemma AddFileCount(m: Manifest, x: Meta, y: Meta)
    requires WellLevelled(m) && x.level < LEVELS
    ensures multiset(AllFiles(AddFile(m, x.level, x)))[y] == multiset(AllFiles(m))[y] + (if y == x then 1 else 0)
  {
    AddKeepsLevels(m, x);
    AllFilesCounts(m, y);
    AllFilesCounts(AddFile(m, x.level, x), y);
    assert multiset(LevelFiles(m, x.level) + [x]) == multiset(LevelFiles(m, x.level)) + multiset{x};
  }

  lemma {:induction false} WithoutCounts(s: seq<Meta>, p: Path, y: Meta)
    ensures multiset(Without(s, p))[y] == if y.path == p then 0 else multiset(s)[y]
  {
    if s != [] {
      WithoutCounts(s[1..], p, y);
      assert s == [s[0]] + s[1..];
    }
  }

  lemma RemoveKeepsLevels(m: Manifest, level: nat, p: Path)
    requires WellLevelled(m) && level < LEVELS
    ensures WellLevelled(RemoveFile(m, level, p))
  {
    var m' := RemoveFile(m, level, p);
    forall l, i | l in m'.levels && 0 <= i < |m'.levels[l]| ensures m'.levels[l][i].level == l < LEVELS {
      if l == level {
        var y := m'.levels[l][i];
        WithoutCounts(LevelFiles(m, level), p, y);
        assert y in multiset(m'.levels[l]);
        assert y in multiset(LevelFiles(m, level));
        assert y in LevelFiles(m, level);
      }
    }
  }

  lemma RemoveFileCounts(m: Manifest, level: nat, p: Path, y: Meta)
    requires WellLevelled(m) && level < LEVELS
    ensures multiset(AllFiles(RemoveFile(m, level, p)))[y]
         == if y.path == p && y.level == level then 0 else multiset(AllFiles(m))[y]
  {
    RemoveKeepsLevels(m, level, p);
    AllFilesCounts(m, y);
    AllFilesCounts(RemoveFile(m, level, p), y);
    WithoutCounts(LevelFiles(m, level), p, y);
  }

  /** remove_file for each of `xs`, at the level its metadata names. */
  function RemoveAll(m: Manifest, xs: seq<Meta>): (r: Manifest)
    decreases xs
  {
    if xs == [] then m else RemoveAll(RemoveFile(m, xs[0].level, xs[0].path), xs[1..])
  }

  function AddAll(m: Manifest, xs: seq<Meta>): (r: Manifest)
    decreases xs
  {
    if xs == [] then m else AddAll(AddFile(m, xs[0].level, xs[0]), xs[1..])
  }

  lemma {:induction false} AddAllCounts(m: Manifest, xs: seq<Meta>)
    requires WellLevelled(m) && forall x | x in xs :: x.level < LEVELS
    ensures WellLevelled(AddAll(m, xs)) && AddAll(m, xs).next == m.next
    ensures multiset(AllFiles(AddAll(m, xs))) == multiset(AllFiles(m)) + multiset(xs)
    decreases xs
  {
    if xs != [] {
      AddFileCounts(m, xs[0]);
      AddAllCounts(AddFile(m, xs[0].level, xs[0]), xs[1..]);
      assert xs == [xs[0]] + xs[1..];
    }
  }

  lemma {:induction false} RemoveAllCounts(m: Manifest, xs: seq<Meta>, rest: multiset<Meta>)
    requires WellLevelled(m) && forall x | x in xs :: x.level < LEVELS
    requires DistinctPaths(xs)
    requires multiset(AllFiles(m)) == multiset(xs) + rest
    requires forall x, y | x in xs && y in rest :: x.path != y.path
    ensures WellLevelled(RemoveAll(m, xs)) && RemoveAll(m, xs).next == m.next
    ensures multiset(AllFiles(RemoveAll(m, xs))) == rest
    decreases xs
  {
    hide AllFiles;
    if xs != [] {
      var x := xs[0];
      RemoveOneCounts(m, xs, rest);
      RemoveKeepsLevels(m, x.level, x.path);
      RemoveAllCounts(RemoveFile(m, x.level, x.path), xs[1..], rest);
    }
  }

  lemma RemoveOneCounts(m: Manifest, xs: seq<Meta>, rest: multiset<Meta>)
    requires WellLevelled(m) && xs != [] && xs[0].level < LEVELS
    requires DistinctPaths(xs)
    requires multiset(AllFiles(m)) == multiset(xs) + rest
    requires forall x, y | x in xs && y in rest :: x.path != y.path
    ensures multiset(AllFiles(RemoveFile(m, xs[0].level, xs[0].path))) == multiset(xs[1..]) + rest
  {
    hide AllFiles, RemoveFile;
    var x := xs[0];
    var m' := RemoveFile(m, x.level, x.path);
    assert xs == [x] + xs[1..];
    forall y: Meta ensures multiset(AllFiles(m'))[y] == (multiset(xs[1..]) + rest)[y] {
      RemoveFileCounts(m, x.level, x.path, y);
      if y.path == x.path {
        assert y !in xs[1..] && y !in rest;
        assert multiset(AllFiles(m))[y] == multiset{x}[y];
      }
    }
  }

  // ---- The three edits the engine makes, seen through the restart order ------------------------------

  /** Sequence numbers strictly descending, paths distinct, every number below the next one to allocate. */
  ghost predicate GoodOrder(o: seq<Meta>, next: nat) {
    && StrictlyDescending(o)
    && DistinctPaths(o)
    && forall i | 0 <= i < |o| :: o[i].seqno < next && o[i].path.n < next && o[i].level < LEVELS
  }

  /** A manifest the engine can trust. */
  ghost predicate Sound(m: Manifest) {
    WellLevelled(m) && GoodOrder(Order(m), m.next)
  }

  lemma OrderFiles(m: Manifest)
    ensures multiset(Order(m)) == multiset(AllFiles(m))
  {
    SortSorts(AllFiles(m));
  }

  lemma SameFilesSameOrder(a: Manifest, b: Manifest)
    requires multiset(AllFiles(a)) == multiset(AllFiles(b)) && StrictlyDescending(Order(a))
    ensures Order(a) == Order(b)
  {
    OrderFiles(a);
    SortRebuilds(AllFiles(b), Order(a));
  }

  /** Publishing a flush puts its file in front. */
  lemma PublishFlush(m: Manifest, x: Meta)
    requires Sound(m) && GoodOrder([x] + Order(m), m.next)
    ensures Order(AddFile(m, x.level, x)) == [x] + Order(m)
    ensures Sound(AddFile(m, x.level, x))
  {
    var o := [x] + Order(m);
    assert o[0] == x;
    OrderFiles(m);
    AddFileCounts(m, x);
    SortRebuilds(AllFiles(AddFile(m, x.level, x)), o);
  }

  /** The run's output takes the run's highest number, so it fits exactly where the run was. */
  lemma RunReplaced(pre: seq<Meta>, run: seq<Meta>, post: seq<Meta>, x: Meta, next: nat)
    requires GoodOrder(pre + run + post, next) && run != []
    requires x.level < LEVELS && x.seqno == run[0].seqno && x.path.n < next
    requires forall i | 0 <= i < |pre + run + post| :: (pre + run + post)[i].path != x.path
    ensures GoodOrder(pre + [x] + post, next)
  {
    var o, o' := pre + run + post, pre + [x] + post;
    forall i, j | 0 <= i < j < |o'|
      ensures o'[i].seqno > o'[j].seqno && o'[i].path != o'[j].path
    {
      var a := if i <= |pre| then i else i + |run| - 1;
      var b := if j <= |pre| then j else j + |run| - 1;
      assert o'[i].seqno == o[a].seqno && (i == |pre| || o'[i] == o[a]);
      assert o'[j].seqno == o[b].seqno && (j == |pre| || o'[j] == o[b]);
    }
    forall i | 0 <= i < |o'|
      ensures o'[i].seqno < next && o'[i].path.n < next && o'[i].level < LEVELS
    {
      var a := if i <= |pre| then i else i + |run| - 1;
      assert o'[i].seqno == o[a].seqno && (i == |pre| || o'[i] == o[a]);
    }
  }

  lemma RunIsApart(pre: seq<Meta>, run: seq<Meta>, post: seq<Meta>, next: nat)
    requires GoodOrder(pre + run + post, next)
    ensures DistinctPaths(run) && forall i | 0 <= i < |run| :: run[i].level < LEVELS
    ensures forall y, z | y in run && z in multiset(pre) + multiset(post) :: y.path != z.path
    ensures multiset(pre + run + post) == multiset(run) + (multiset(pre) + multiset(post))
  {
    var o := pre + run + post;
    assert forall i | 0 <= i < |run| :: run[i] == o[|pre| + i];
    forall y, z | y in run && z in multiset(pre) + multiset(post) ensures y.path != z.path {
      var i :| 0 <= i < |run| && run[i] == y;
      if z in pre {
        var j :| 0 <= j < |pre| && pre[j] == z;
        assert o[j] == z && o[|pre| + i] == y;
      } else {
        assert z in post;
        var j :| 0 <= j < |post| && post[j] == z;
        assert o[|pre| + |run| + j] == z && o[|pre| + i] == y;
      }
    }
  }

  lemma RemoveRun(m: Manifest, pre: seq<Meta>, run: seq<Meta>, post: seq<Meta>)
    requires Sound(m) && Order(m) == pre + run + post
    ensures WellLevelled(RemoveAll(m, run)) && RemoveAll(m, run).next == m.next
    ensures multiset(AllFiles(RemoveAll(m, run))) == multiset(pre) + multiset(post)
    ensures multiset(AllFiles(m)) == multiset(run) + (multiset(pre) + multiset(post))
    ensures forall i | 0 <= i < |run| :: run[i].level < LEVELS
  {
    OrderFiles(m);
    RunIsApart(pre, run, post, m.next);
    RemoveAllCounts(m, run, multiset(pre) + multiset(post));
  }

  lemma AddThenRemove(m: Manifest, x: Meta)
    requires WellLevelled(m) && x.level < LEVELS
    requires forall y | y in multiset(AllFiles(m)) :: y.path != x.path
    ensures WellLevelled(RemoveFile(AddFile(m, x.level, x), x.level, x.path))
    ensures multiset(AllFiles(RemoveFile(AddFile(m, x.level, x), x.level, x.path))) == multiset(AllFiles(m))
  {
    AddFileCounts(m, x);
    var m' := AddFile(m, x.level, x);
    RemoveKeepsLevels(m', x.level, x.path);
    forall y: Meta
      ensures multiset(AllFiles(RemoveFile(m', x.level, x.path)))[y] == multiset(AllFiles(m))[y]
    {
      RemoveFileCounts(m', x.level, x.path, y);
    }
  }

  /** Publishing a compaction replaces a contiguous run by its output. */
  lemma PublishCompaction(m: Manifest, pre: seq<Meta>, run: seq<Meta>, post: seq<Meta>, x: Meta)
    requires Sound(m) && Order(m) == pre + run + post && run != []
    requires x.level < LEVELS && x.seqno == run[0].seqno && x.path.n < m.next
    requires forall i | 0 <= i < |Order(m)| :: Order(m)[i].path != x.path
    ensures Order(AddFile(RemoveAll(m, run), x.level, x)) == pre + [x] + post
    ensures Sound(AddFile(RemoveAll(m, run), x.level, x))
  {
    OrderFiles(m);
    RunReplaced(pre, run, post, x, m.next);
    RemoveRun(m, pre, run, post);
    AddFileCounts(RemoveAll(m, run), x);
    assert multiset(pre + [x] + post) == multiset(pre) + multiset(post) + multiset{x};
    SortRebuilds(AllFiles(AddFile(RemoveAll(m, run), x.level, x)), pre + [x] + post);
  }

  /** What compact() does to the manifest when its save fails: take the output out, put the inputs back. */
  function Undo(m: Manifest, run: seq<Meta>, x: Meta): (r: Manifest) {
    AddAll(RemoveFile(AddFile(RemoveAll(m, run), x.level, x), x.level, x.path), run)
  }

  lemma UndoCompaction(m: Manifest, pre: seq<Meta>, run: seq<Meta>, post: seq<Meta>, x: Meta)
    requires Sound(m) && Order(m) == pre + run + post && run != []
    requires x.level < LEVELS && x.seqno == run[0].seqno && x.path.n < m.next
    requires forall i | 0 <= i < |Order(m)| :: Order(m)[i].path != x.path
    ensures Order(Undo(m, run, x)) == Order(m) && Sound(Undo(m, run, x)) && Undo(m, run, x).next == m.next
  {
    RemoveRun(m, pre, run, post);
    var m1 := RemoveAll(m, run);
    forall y | y in multiset(AllFiles(m1)) ensures y.path != x.path {
      assert y in pre || y in post;
      assert y in Order(m);
    }
    AddThenRemove(m1, x);
    var m2 := RemoveFile(AddFile(m1, x.level, x), x.level, x.path);
    AddAllCounts(m2, run);
    SameFilesSameOrder(m, AddAll(m2, run));
  }
}
