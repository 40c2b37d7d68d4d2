/**
 What the actions of an update expression come to (src/expressions/update_expression.cpp), said by what is read at a
 path before and after: SET and its arithmetic, REMOVE, ADD and DELETE.
 */
module UpdateMeaning {
  import opened Bytes
  import opened Values
  import opened DocumentPaths
  import opened UpdateGrammar

  // ---- Sets ----------------------------------------------------------------------------------------

  /**
   The elements of both; those of `a` first and as they were, then each of the others once, in the order in which `b`
   first has them.  A set without duplicates stays one.
   */
  ghost predicate IsUnion(r: seq<ByteString>, a: seq<ByteString>, b: seq<ByteString>) {
    && (forall x :: x in r <==> x in a || x in b)
    && |a| <= |r| && r[..|a|] == a
    && (forall i, j | 0 <= i < j < |r| && |a| <= j :: r[i] != r[j])
    && (forall i, j, n | |a| <= i < j < |r| && 0 <= n < |b| && b[n] == r[j] :: r[i] in b[..n])
  }

  /** Where the elements that stay were. */
  ghost predicate Places(at: seq<nat>, r: seq<ByteString>, a: seq<ByteString>, b: seq<ByteString>) {
    && |at| == |r| && (forall i, j | 0 <= i < j < |at| :: at[i] < at[j])
    && (forall i | 0 <= i < |at| :: at[i] < |a| && a[at[i]] == r[i])
    && (forall n: nat | n < |a| :: n in at <==> a[n] !in b)
  }

  /** The elements of `a` that are not in `b`, at increasing positions: each as often and in the order it was. */
  ghost predicate IsDifference(r: seq<ByteString>, a: seq<ByteString>, b: seq<ByteString>) {
    && (forall x :: x in r <==> x in a && x !in b)
    && exists at: seq<nat> :: Places(at, r, a, b)
  }

  /** One element of the operand after another. */
  lemma {:induction false} UnionLast(a: seq<ByteString>, b: seq<ByteString>)
    requires b != []
    ensures var n := |b| - 1;
            var u := Union(a, b[..n]);
            Union(a, b) == if b[n] in u then u else u + [b[n]]
    decreases |b|
  {
    var n := |b| - 1;
    if n > 0 {
      UnionLast(if b[0] in a then a else a + [b[0]], b[1..]);
      assert b[1..][..n - 1] == b[..n][1..] && b[1..][n - 1] == b[n];
    } else {
      assert b[..0] == [] && b[1..] == [];
    }
  }

  lemma {:induction false} UnionIs(a: seq<ByteString>, b: seq<ByteString>)
    ensures IsUnion(Union(a, b), a, b)
    decreases |b|
  {
    hide IsUnion;
    if b == [] {
      UnionNone(a);
    } else {
      hide Union;
      var n := |b| - 1;
      UnionLast(a, b);
      UnionIs(a, b[..n]);
      UnionGrows(Union(a, b[..n]), a, b[..n], b[n]);
      assert b == b[..n] + [b[n]];
    }
  }

  lemma UnionNone(a: seq<ByteString>)
    ensures Union(a, []) == a && IsUnion(a, a, [])
  {
    assert a[..|a|] == a;
  }

  lemma UnionGrows(u: seq<ByteString>, a: seq<ByteString>, b: seq<ByteString>, x: ByteString)
    requires IsUnion(u, a, b)
    ensures IsUnion(if x in u then u else u + [x], a, b + [x])
  {
    var r, c := if x in u then u else u + [x], b + [x];
    forall i, j, n | |a| <= i < j < |r| && 0 <= n < |c| && c[n] == r[j] ensures r[i] in c[..n] {
      if j < |u| && n < |b| {
        assert c[..n] == b[..n];
      } else {
        assert u[i] in b;
        assert n == |b| && c[..n] == b;
      }
    }
  }

  lemma {:induction false} DifferenceLast(a: seq<ByteString>, b: seq<ByteString>)
    requires a != []
    ensures var n := |a| - 1; Difference(a, b) == Difference(a[..n], b) + if a[n] in b then [] else [a[n]]
  {
    var n := |a| - 1;
    if n > 0 {
      DifferenceLast(a[1..], b);
      assert a[1..][..n - 1] == a[..n][1..] && a[1..][n - 1] == a[n];
    } else {
      assert a[..0] == [] && a[1..] == [];
    }
  }

  lemma DifferenceNone(a: seq<ByteString>, b: seq<ByteString>)
    requires a == []
    ensures Difference(a, b) == []
  {
  }

  lemma {:induction false} PlacesOf(a: seq<ByteString>, b: seq<ByteString>) returns (at: seq<nat>)
    ensures Places(at, Difference(a, b), a, b)
  {
    at := [];
    if a != [] {
      hide Difference;
      var n := |a| - 1;
      DifferenceLast(a, b);
      at := PlacesOf(a[..n], b);
      assert forall i | 0 <= i < |at| :: a[..n][at[i]] == a[at[i]];
      assert forall m: nat | m < n :: a[..n][m] == a[m];
      at := at + if a[n] in b then [] else [n];
    }
  }

  lemma DifferenceIs(a: seq<ByteString>, b: seq<ByteString>)
    ensures IsDifference(Difference(a, b), a, b)
  {
    var at := PlacesOf(a, b);
    var r := Difference(a, b);
    forall x ensures x in r <==> x in a && x !in b {
      if x in r {
        var i :| 0 <= i < |r| && r[i] == x;
        assert at[i] in at;
      }
      if x in a && x !in b {
        var n: nat :| n < |a| && a[n] == x;
        var i :| 0 <= i < |at| && at[i] == n;
        assert r[i] == x;
      }
    }
  }

  // ---- Names ---------------------------------------------------------------------------------------

  /** What a name in an expression stands for: itself, or the name given for it where it starts with '#'. */
  ghost predicate StandsFor(names: Names, text: ByteString, name: ByteString) {
    if text != [] && text[0] == 35 then text in names && name == names[text] else name == text
  }

  ghost predicate IsSeg(names: Names, s: Step, seg: Seg) {
    match s
    case ByIndex(i) => seg == Index(i)
    case ByName(t) => IsName(t) && seg.Name? && StandsFor(names, t.text, seg.name)
  }

  lemma StepMeans(names: Names, s: Step)
    requires s.ByName? ==> IsName(s.tok)
    ensures forall seg :: IsSeg(names, s, seg) <==> StepSeg(names, s) == Some(seg)
  {
  }

  lemma {:induction false} StepsLength(names: Names, steps: seq<Step>)
    requires forall i | 0 <= i < |steps| && steps[i].ByName? :: IsName(steps[i].tok)
    ensures StepsPath(names, steps).Some? ==> |StepsPath(names, steps).value| == |steps|
    decreases |steps|
  {
    hide StepSeg;
    if steps != [] {
      StepsLength(names, steps[..|steps| - 1]);
    }
  }

  ghost predicate AreSegs(names: Names, steps: seq<Step>, q: Path) {
    |q| == |steps| && forall i | 0 <= i < |steps| :: IsSeg(names, steps[i], q[i])
  }

  lemma AreSegsLast(names: Names, steps: seq<Step>, q: Path)
    requires steps != [] && |q| == |steps|
    ensures var n := |steps| - 1;
            AreSegs(names, steps, q) <==> AreSegs(names, steps[..n], q[..n]) && IsSeg(names, steps[n], q[n])
  {
    hide IsSeg;
  }

  lemma {:induction false} StepsMean(names: Names, steps: seq<Step>, q: Path)
    requires forall i | 0 <= i < |steps| && steps[i].ByName? :: IsName(steps[i].tok)
    ensures StepsPath(names, steps) == Some(q) <==> AreSegs(names, steps, q)
    decreases |steps|
  {
    StepsLength(names, steps);
    if steps != [] && |q| == |steps| {
      hide IsSeg, StepSeg, AreSegs;
      var n := |steps| - 1;
      StepMeans(names, steps[n]);
      AreSegsLast(names, steps, q);
      StepsMean(names, steps[..n], q[..n]);
      StepsLength(names, steps[..n]);
      assert q == q[..n] + [q[n]];
    }
  }

  /** A path is its root name and its steps, each name standing for itself or for the name given for it. */
  lemma PathMeans(names: Names, p: RawPath, q: Path)
    requires GoodPath(p)
    ensures PathOf(names, p) == Some(q)
       <==> && |q| == |p.steps| + 1 && q[0].Name? && StandsFor(names, p.root.text, q[0].name)
            && forall i | 0 <= i < |p.steps| :: IsSeg(names, p.steps[i], q[i + 1])
  {
    hide IsSeg, StepsPath;
    if q != [] {
      StepsMean(names, p.steps, q[1..]);
      assert q == [q[0]] + q[1..];
      assert forall i | 0 <= i < |q| - 1 :: q[1..][i] == q[i + 1];
    }
  }

  lemma PathStarts(names: Names, p: RawPath)
    requires GoodPath(p)
    ensures PathOf(names, p).Some? ==> PathOf(names, p).value != [] && PathOf(names, p).value[0].Name?
  {
  }

  // ---- Writing and removing ------------------------------------------------------------------------

  ghost predicate SameElsewhere(item: Item, r: Item, p: Path) {
    forall q | Diverge(p, q) :: ReadPath(r, q) == ReadPath(item, q)
  }

  /** v is at p now, and nothing that is not below p has changed. */
  ghost predicate Holds(item: Item, r: Item, p: Path, v: Value) {
    ReadPath(r, p) == Some(v) && SameElsewhere(item, r, p)
  }

  /** The item has the container that p ends in: a map, or a list that is long enough. */
  ghost predicate TakesWrite(item: Item, p: Path) {
    && p != [] && p[0].Name?
    && (|p| == 1 ||
        var parent := ReadPath(item, p[..|p| - 1]);
        parent.Some? && match p[|p| - 1]
                        case Name(_) => parent.value.M?
                        case Index(i) => parent.value.L? && i <= |parent.value.elems|)
  }

  /** What was at p is not: a name is absent, a list element has given its place to the next. */
  ghost predicate Gone(item: Item, r: Item, p: Path)
    requires p != []
  {
    match p[|p| - 1]
    case Name(_) => ReadPath(r, p).None? && SameElsewhere(item, r, p)
    case Index(i) =>
      var list := p[..|p| - 1];
      && (forall j: nat, below: Path :: ReadPath(r, list + [Index(j)] + below) == ReadPath(item,
            list + [Index(if ReadPath(item, p).Some? && j >= i then j + 1 else j)] + below))
      && (forall q | Beside(list, q) :: ReadPath(r, q) == ReadPath(item, q))
  }

  lemma WriteMeans(item: Item, p: Path, v: Value)
    ensures WritePath(item, p, v).Some? <==> TakesWrite(item, p)
    ensures WritePath(item, p, v).Some? ==> Holds(item, WritePath(item, p, v).value, p, v)
  {
    hide ReadPath, WritePath;
    WriteDefinedIff(item, p, v);
    if WritePath(item, p, v).Some? {
      WriteThenRead(item, p, v, []);
      forall q | Diverge(p, q) ensures ReadPath(WritePath(item, p, v).value, q) == ReadPath(item, q) {
        WriteElsewhere(item, p, v, q);
      }
    }
  }

  /** What can be read can be written. */
  lemma ReadTakesWrite(item: Item, p: Path)
    requires ReadPath(item, p).Some?
    ensures TakesWrite(item, p)
  {
    if |p| > 1 {
      var init, last := p[..|p| - 1], p[|p| - 1];
      assert p == init + [last] && p[1..] == init[1..] + [last];
      ReadSplits(item[p[0].name], init[1..], [last]);
    }
  }

  lemma EraseMeans(item: Item, p: Path)
    requires p != [] && p[0].Name?
    ensures Gone(item, ErasePath(item, p), p)
  {
    var r, last, list := ErasePath(item, p), p[|p| - 1], p[..|p| - 1];
    if last.Name? {
      EraseThenRead(item, p);
      forall q | Diverge(p, q) ensures ReadPath(r, q) == ReadPath(item, q) {
        EraseElsewhere(item, p, q);
      }
    } else {
      assert p == list + [last];
      forall j: nat, below: Path
        ensures ReadPath(r, list + [Index(j)] + below) == ReadPath(item,
                  list + [Index(if ReadPath(item, p).Some? && j >= last.index then j + 1 else j)] + below)
      {
        ElementGone(item, list, last.index, j, below);
      }
      forall q | Beside(list, q) ensures ReadPath(r, q) == ReadPath(item, q) {
        EraseIndexElsewhere(item, list, last.index, q);
      }
    }
  }

  lemma ElementGone(item: Item, list: Path, i: nat, j: nat, below: Path)
    requires list != [] && list[0].Name?
    ensures var p := list + [Index(i)];
            ReadPath(ErasePath(item, p), list + [Index(j)] + below)
            == ReadPath(item, list + [Index(if ReadPath(item, p).Some? && j >= i then j + 1 else j)] + below)
  {
    var p, name := list + [Index(i)], list[0].name;
    if name in item {
      EraseIndex(item, list, i, j, below);
      ReadSplits(item[name], list[1..], [Index(i)]);
      assert p[1..] == list[1..] + [Index(i)];
      assert ReadPath(item, p).Some? <==> Shifts(item[name], list[1..], i);
    }
  }

  // ---- The four actions ----------------------------------------------------------------------------

  /** SET puts the value of the right-hand side at the path. */
  lemma SetMeans(a: Assignment, item: Item, env: Env)
    requires GoodPath(a.path) && GoodSum(a.value)
    ensures var p, v, r := PathOf(env.names, a.path), EvalSum(a.value, item, env), EvalAssignment(a, item, env);
            && (r.Some? <==> p.Some? && v.Got? && TakesWrite(item, p.value))
            && (r.Some? ==> Holds(item, r.value, p.value, v.value))
  {
    hide PathOf, EvalSum, WritePath, TakesWrite, Holds, GoodPath, GoodSum;
    var p, v := PathOf(env.names, a.path), EvalSum(a.value, item, env);
    if p.Some? && v.Got? {
      WriteMeans(item, p.value, v.value);
    }
  }

  /** A sum takes its operands from the left, adding the text of one number to, or taking it from, what it has. */
  lemma SumMeans(s: Sum, item: Item, env: Env)
    requires GoodSum(s) && s.rest != []
    ensures var n := |s.rest| - 1;
            var x, y := EvalSum(Sum(s.first, s.rest[..n]), item, env), EvalOperand(s.rest[n].o, item, env);
            EvalSum(s, item, env) ==
            if x.Got? && y.Got? && x.value.N? && y.value.N? then
              match if s.rest[n].plus then env.arithmetic.plus(x.value.n, y.value.n)
                    else env.arithmetic.minus(x.value.n, y.value.n)
              case None => Error
              case Some(text) => Got(N(text))
            else Error
  {
    hide EvalOperand;
    TermsFromLeft(EvalOperand(s.first, item, env), s.rest, item, env);
  }

  lemma {:induction false} TermsFromLeft(acc: Outcome, ts: seq<Term>, item: Item, env: Env)
    requires ts != [] && forall i | 0 <= i < |ts| :: GoodOperand(ts[i].o)
    ensures var n := |ts| - 1;
            EvalTerms(acc, ts, item, env)
            == Combine(ts[n].plus, EvalTerms(acc, ts[..n], item, env), EvalOperand(ts[n].o, item, env), env.arithmetic)
    decreases |ts|
  {
    hide EvalOperand, Combine, GoodOperand;
    var n := |ts| - 1;
    if n > 0 {
      var next := Combine(ts[0].plus, acc, EvalTerm(ts[0], item, env), env.arithmetic);
      TermsFromLeft(next, ts[1..], item, env);
      assert ts[1..][n - 1] == ts[n] && ts[1..][..n - 1] == ts[..n][1..] && ts[..n][0] == ts[0];
    }
  }

  /** REMOVE takes what is at the path away; only a name that stands for nothing makes it fail. */
  lemma RemoveMeans(p: RawPath, item: Item, env: Env)
    requires GoodPath(p)
    ensures var q, r := PathOf(env.names, p), EvalRemove(p, item, env);
            && (r.Some? <==> q.Some?)
            && (r.Some? ==> q.value != [] && Gone(item, r.value, q.value))
  {
    hide GoodPath, ErasePath, Gone;
    PathStarts(env.names, p);
    if PathOf(env.names, p).Some? {
      EraseMeans(item, PathOf(env.names, p).value);
    }
  }

  /** What ADD makes of what was there: a number with the operand added to it, or a set with the operand's elements. */
  ghost predicate IsAdded(v: Value, was: Option<Value>, operand: Value, arithmetic: Arithmetic) {
    match operand
    case N(n) =>
      v.N? && arithmetic.addTo(if was.Some? && was.value.N? then Some(was.value.n) else None, n) == Some(v.n)
    case SS(b) => if was.None? then v == operand else was.value.SS? && v.SS? && IsUnion(v.strings, was.value.strings, b)
    case NS(b) => if was.None? then v == operand else was.value.NS? && v.NS? && IsUnion(v.numbers, was.value.numbers, b)
    case _ => false
  }

  /** The operand is a number that can be added, or a set where there is nothing or a set of its type. */
  ghost predicate CanAdd(was: Option<Value>, operand: Value, arithmetic: Arithmetic) {
    match operand
    case N(n) => arithmetic.addTo(if was.Some? && was.value.N? then Some(was.value.n) else None, n).Some?
    case SS(_) => was.None? || was.value.SS?
    case NS(_) => was.None? || was.value.NS?
    case _ => false
  }

  lemma AddedMeans(was: Option<Value>, operand: Value, arithmetic: Arithmetic)
    ensures var v := Added(was, operand, arithmetic);
            (v.Some? <==> CanAdd(was, operand, arithmetic)) && (v.Some? ==> IsAdded(v.value, was, operand, arithmetic))
  {
    hide Union, IsUnion;
    if operand.SS? && was.Some? && was.value.SS? {
      UnionIs(was.value.strings, operand.strings);
    }
    if operand.NS? && was.Some? && was.value.NS? {
      UnionIs(was.value.numbers, operand.numbers);
    }
  }

  lemma AddMeans(pv: PathValue, item: Item, env: Env)
    requires GoodPath(pv.path)
    ensures var p, r := PathOf(env.names, pv.path), EvalAdd(pv, item, env);
            && (r.Some? <==>
                  && p.Some? && pv.text in env.values && TakesWrite(item, p.value)
                  && CanAdd(ReadPath(item, p.value), env.values[pv.text], env.arithmetic))
            && (r.Some? ==> exists v ::
                  && Holds(item, r.value, p.value, v)
                  && IsAdded(v, ReadPath(item, p.value), env.values[pv.text], env.arithmetic))
  {
    hide PathOf, WritePath, TakesWrite, Holds, GoodPath, Added, CanAdd, IsAdded;
    var p := PathOf(env.names, pv.path);
    if p.Some? && pv.text in env.values {
      var v := Added(ReadPath(item, p.value), env.values[pv.text], env.arithmetic);
      AddedMeans(ReadPath(item, p.value), env.values[pv.text], env.arithmetic);
      if v.Some? {
        WriteMeans(item, p.value, v.value);
      }
    }
  }

  /** DELETE takes the operand's elements out of the set a at p, and the set with the last of them. */
  ghost predicate TakenOut(item: Item, r: Item, p: Path, a: seq<ByteString>, b: seq<ByteString>,
                           kind: seq<ByteString> -> Value)
    requires p != []
  {
    if forall x | x in a :: x in b then Gone(item, r, p)
    else exists d :: IsDifference(d, a, b) && Holds(item, r, p, kind(d))
  }

  lemma DeleteMeans(pv: PathValue, item: Item, env: Env)
    requires GoodPath(pv.path)
    ensures var p, r := PathOf(env.names, pv.path), EvalDelete(pv, item, env);
            && (r.Some? <==> p.Some? && pv.text in env.values)
            && (r.Some? ==> p.value != [] && match (ReadPath(item, p.value), env.values[pv.text])
                  case (Some(SS(a)), SS(b)) => TakenOut(item, r.value, p.value, a, b, d => SS(d))
                  case (Some(NS(a)), NS(b)) => TakenOut(item, r.value, p.value, a, b, d => NS(d))
                  case _ => r.value == item)
  {
    hide GoodPath;
    PathStarts(env.names, pv.path);
    var p := PathOf(env.names, pv.path);
    if p.Some? && pv.text in env.values && ReadPath(item, p.value).Some? {
      hide PathOf, WritePath, ErasePath, ReadPath, Difference, TakenOut;
      match (ReadPath(item, p.value).value, env.values[pv.text])
      case (SS(a), SS(b)) => SetTakenOut(item, p.value, a, b, d => SS(d));
      case (NS(a), NS(b)) => SetTakenOut(item, p.value, a, b, d => NS(d));
      case _ =>
    }
  }

  lemma SetTakenOut(item: Item, p: Path, a: seq<ByteString>, b: seq<ByteString>, kind: seq<ByteString> -> Value)
    requires p != [] && p[0].Name? && ReadPath(item, p).Some?
    ensures var d := Difference(a, b);
            var r := if d == [] then Some(ErasePath(item, p)) else WritePath(item, p, kind(d));
            r.Some? && TakenOut(item, r.value, p, a, b, kind)
  {
    hide WritePath, ErasePath, ReadPath, TakesWrite, Holds, Gone, Difference, IsDifference;
    ReadTakesWrite(item, p);
    EraseMeans(item, p);
    DifferenceEmptyIff(a, b);
    DifferenceIs(a, b);
    WriteMeans(item, p, kind(Difference(a, b)));
  }

  lemma DifferenceEmptyIff(a: seq<ByteString>, b: seq<ByteString>)
    ensures Difference(a, b) == [] <==> forall x | x in a :: x in b
  {
    DifferenceIs(a, b);
    var r := Difference(a, b);
    assert r != [] ==> r[0] in r;
  }
}
