/**
 Update expressions (src/expressions/update_expression.cpp): the single-pass interpreter that applies SET, REMOVE,
 ADD and DELETE to a working copy of an item.  Decimal arithmetic is supplied by the caller.  Every token access
 is within bounds and every loop ends; both follow from the last token being End.
 */
module UpdateExpressions {
  import opened Bytes
  import opened Values
  import opened DocumentPaths
  import opened UpdateGrammar
  import opened UpdateTokens
  import opened UpdateMeaning

  // ---- What an expression may touch ----------------------------------------------------------------

  /** The attribute names an expression mentions, after substitution. */
  ghost function Mentioned(toks: seq<Tok>, names: Names): (r: set<ByteString>) {
    (set t | t in toks && t.Ident? :: t.text)
    + (set t | t in toks && (t.Ident? || t.NameRef?) && t.text in names :: names[t.text])
    + (set t | t in toks && t.NameRef? && !StartsWithHash(t.text) :: t.text)
  }

  /** One change the interpreter makes to the working item. */
  datatype Edit = Wrote(path: Path, value: Value) | Erased(path: Path)

  function EditOne(item: Item, e: Edit): (r: Option<Item>) {
    match e
    case Wrote(p, v) => WritePath(item, p, v)
    case Erased(p) => Some(ErasePath(item, p))
  }

  /** The edits, one after another. */
  function EditAll(item: Item, edits: seq<Edit>): (r: Option<Item>) {
    if edits == [] then Some(item)
    else
      var mid := EditAll(item, edits[..|edits| - 1]);
      if mid.None? then None else EditOne(mid.value, edits[|edits| - 1])
  }

  /** Every edit is of an attribute the expression mentions. */
  ghost predicate Within(edits: seq<Edit>, roots: set<ByteString>) {
    forall i | 0 <= i < |edits| :: edits[i].path != [] && edits[i].path[0].Name? && edits[i].path[0].name in roots
  }

  /** Attributes an expression does not mention come out as they went in. */
  lemma {:induction false} UntouchedAttributes(item: Item, edits: seq<Edit>, roots: set<ByteString>, name: ByteString)
    requires EditAll(item, edits).Some? && Within(edits, roots) && name !in roots
    ensures var r := EditAll(item, edits).value;
            (name in r <==> name in item) && (name in item ==> r[name] == item[name])
  {
    if edits != [] {
      UntouchedAttributes(item, edits[..|edits| - 1], roots, name);
      assert edits[|edits| - 1].path[0].name != name;
    }
  }

  lemma EditOneMore(item: Item, edits: seq<Edit>, e: Edit)
    ensures EditAll(item, edits + [e]) == var mid := EditAll(item, edits);
            if mid.None? then None else EditOne(mid.value, e)
  {
    assert (edits + [e])[..|edits|] == edits;
  }

  lemma WithinOneMore(edits: seq<Edit>, roots: set<ByteString>, e: Edit)
    requires Within(edits, roots) && e.path != [] && e.path[0].Name? && e.path[0].name in roots
    ensures Within(edits + [e], roots)
  {
  }

  // ---- Set arithmetic ------------------------------------------------------------------------------

  /** Push back each element that is not there yet. */
  method MergeSet(dst: seq<ByteString>, elems: seq<ByteString>) returns (r: seq<ByteString>)
    ensures r == Union(dst, elems) && IsUnion(r, dst, elems)
  {
    hide IsUnion, Union;
    r := dst;
    UnionNone(dst);
    assert elems[..0] == [];
    for n := 0 to |elems|
      invariant r == Union(dst, elems[..n])
    {
      assert elems[..n + 1][..n] == elems[..n];
      UnionLast(dst, elems[..n + 1]);
      if elems[n] !in r {
        r := r + [elems[n]];
      }
    }
    assert elems[..|elems|] == elems;
    UnionIs(dst, elems);
  }

  /** Keep what is not to be removed. */
  method WithoutSet(dst: seq<ByteString>, elems: seq<ByteString>) returns (r: seq<ByteString>)
    ensures r == Difference(dst, elems) && IsDifference(r, dst, elems)
  {
    hide IsDifference, Difference;
    r := [];
    DifferenceNone(dst[..0], elems);
    for n := 0 to |dst|
      invariant r == Difference(dst[..n], elems)
    {
      assert dst[..n + 1][..n] == dst[..n];
      DifferenceLast(dst[..n + 1], elems);
      if dst[n] !in elems {
        r := r + [dst[n]];
      }
    }
    assert dst[..|dst|] == dst;
    DifferenceIs(dst, elems);
  }

  /** What ADD writes. */
  method AddedTo(existing: Option<Value>, operand: Value, arithmetic: Arithmetic) returns (v: Option<Value>)
    ensures v == Added(existing, operand, arithmetic)
    ensures v.Some? <==> CanAdd(existing, operand, arithmetic)
    ensures v.Some? ==> IsAdded(v.value, existing, operand, arithmetic)
  {
    AddedMeans(existing, operand, arithmetic);
    hide Union, CanAdd, IsAdded;
    if operand.N? {
      var sum := arithmetic.addTo(if existing.Some? && existing.value.N? then Some(existing.value.n) else None,
          operand.n);
      return if sum.None? then None else Some(N(sum.value));
    }
    if !operand.SS? && !operand.NS? {
      return None;
    }
    if existing.None? {
      return Some(operand);
    }
    if operand.SS? && existing.value.SS? {
      var merged := MergeSet(existing.value.strings, operand.strings);
      return Some(SS(merged));
    }
    if operand.NS? && existing.value.NS? {
      var merged := MergeSet(existing.value.numbers, operand.numbers);
      return Some(NS(merged));
    }
    return None;
  }

  /** What DELETE leaves of a set of the operand's type. */
  method LeftOf(existing: Option<Value>, operand: Value) returns (v: Option<Value>)
    ensures v == Remaining(existing, operand)
  {
    hide Difference;
    if existing.Some? && existing.value.SS? && operand.SS? {
      var left := WithoutSet(existing.value.strings, operand.strings);
      return Some(SS(left));
    }
    if existing.Some? && existing.value.NS? && operand.NS? {
      var left := WithoutSet(existing.value.numbers, operand.numbers);
      return Some(NS(left));
    }
    return None;
  }

  /** What a failed action leaves for a tree. */
  ghost const NO_ACTION: Action := Drop(RawPath(End, []))

  // ---- The interpreter -----------------------------------------------------------------------------

  class Applier {
    const toks: seq<Tok>
    const env: Env
    const start: Item
    var pos: nat
    var item: Item
    var failed: bool
    ghost var edits: seq<Edit>

    ghost function Roots(): (r: set<ByteString>) {
      Mentioned(toks, env.names)
    }

    ghost predicate Valid()
      reads this
    {
      && WellFormed(toks) && pos < |toks|
      && EditAll(start, edits) == Some(item) && Within(edits, Roots())
    }

    constructor (toks: seq<Tok>, item: Item, env: Env)
      requires WellFormed(toks)
      ensures Valid() && start == item && this.item == item && edits == [] && !failed && pos == 0
      ensures this.toks == toks && this.env == env
    {
      this.toks, this.env, start := toks, env, item;
      pos, this.item, failed, edits := 0, item, false, [];
    }

    /** Never past the last token. */
    method Advance() returns (t: Tok)
      requires Valid()
      modifies this`pos
      ensures Valid() && t == toks[old(pos)] && (if t.End? then pos == old(pos) else pos == old(pos) + 1)
    {
      hide EditAll, Within, Mentioned;
      t := toks[pos];
      if pos < |toks| - 1 {
        pos := pos + 1;
      }
    }

    method ResolveName(raw: ByteString) returns (r: Option<ByteString>)
      requires Ident(raw) in toks || NameRef(raw) in toks
      modifies this`failed
      ensures r == Resolve(env.names, raw)
      ensures r.Some? ==> r.value in Roots() && failed == old(failed)
      ensures r.None? ==> failed
    {
      if StartsWithHash(raw) {
        if raw in env.names {
          assert Ident(raw) in toks ==> env.names[raw] in Roots();
          assert NameRef(raw) in toks ==> env.names[raw] in Roots();
          return Some(env.names[raw]);
        }
        failed := true;
        return None;
      }
      assert Ident(raw) in toks ==> raw in Roots();
      assert NameRef(raw) in toks ==> raw in Roots();
      return Some(raw);
    }

    /** The tokens of `want` stand here, and what follows ends it. */
    ghost predicate PathHere(want: Option<RawPath>)
      reads this
    {
      want.Some? ==>
        var n := |PathToks(want.value)|;
        GoodPath(want.value) && Stands(toks, pos, PathToks(want.value)) && Closes(toks[pos + n])
    }

    ghost predicate OperandHere(want: Option<Operand>)
      reads this
    {
      want.Some? ==>
        var n := |OperandToks(want.value)|;
        GoodOperand(want.value) && Stands(toks, pos, OperandToks(want.value)) && Closes(toks[pos + n])
    }

    ghost predicate SumHere(want: Option<Sum>)
      reads this
    {
      want.Some? ==>
        var n := |SumToks(want.value)|;
        GoodSum(want.value) && Stands(toks, pos, SumToks(want.value)) && ClosesSum(toks[pos + n])
    }

    /** A result against its specification: an error is recorded, anything else ends where the tokens end. */
    ghost predicate Meets(spec: Outcome, r: Option<Value>, end: nat, wasFailed: bool)
      reads this
    {
      if spec.Error? then failed else OutcomeOf(r) == spec && pos == end && failed == wasFailed
    }

    /** The tokens from `from` up to here are exactly ts. */
    ghost predicate Consumed(from: nat, ts: seq<Tok>)
      reads this
    {
      At(toks, from, ts) && pos == from + |ts|
    }

    /** One .name or [index] step. */
    method ParseStep(ghost want: Option<Step>) returns (r: Option<Seg>, ghost step: Step)
      requires Valid() && (toks[pos].Dot? || toks[pos].IndexTok?)
      requires want.Some? ==> StepHere(toks, pos, want.value)
      modifies this`pos, this`failed
      ensures Valid() && pos > old(pos) && (r.Some? ==> failed == old(failed)) && (r.None? ==> failed)
      ensures want.Some? ==>
              r == StepSeg(env.names, want.value) && (r.Some? ==> pos == old(pos) + |StepToks(want.value)|)
      ensures r.Some? ==> StepHere(toks, old(pos), step) && pos == old(pos) + |StepToks(step)|
    {
      hide EditAll, Within, Mentioned, Resolve;
      var d := Advance();
      if d.IndexTok? {
        return Some(Index(d.index)), ByIndex(d.index);
      }
      var seg := toks[pos];
      step := ByName(seg);
      if !IsName(seg) {
        failed := true;
        return None, step;
      }
      assert seg in toks;
      var skip := Advance();
      var name := ResolveName(seg.text);
      r := if name.None? then None else Some(Name(name.value));
    }

    /** A path starts with a mentioned name; on the tokens of a path it returns that path. */
    method ParsePath(ghost want: Option<RawPath>) returns (r: Option<Path>, ghost tree: RawPath)
      requires Valid() && PathHere(want)
      modifies this`pos, this`failed
      ensures Valid() && pos >= old(pos) && (old(failed) ==> failed) && (r.None? ==> failed)
      ensures r.Some? ==> GoodPath(tree) && Consumed(old(pos), PathToks(tree))
      ensures r.Some? ==> pos > old(pos) && r.value != [] && r.value[0].Name? && r.value[0].name in Roots()
      ensures want.Some? ==> match PathOf(env.names, want.value)
                             case None => r.None? && failed
                             case Some(p) => (&& r == Some(p) && pos == old(pos) + |PathToks(want.value)|
                                              && failed == old(failed))
    {
      hide EditAll, Within, Mentioned, At, Resolve, StepHere, StepsToks, StepToks, StepsPath, StepSeg;
      if want.Some? {
        AtSplits(toks, pos, [want.value.root], StepsToks(want.value.steps));
        AtOne(toks, pos, want.value.root);
        NoSteps(env.names, want.value.steps);
      }
      var t := toks[pos];
      tree := RawPath(t, []);
      if !IsName(t) {
        failed := true;
        return None, tree;
      }
      assert t in toks;
      var skip := Advance();
      var root := ResolveName(t.text);
      if root.None? {
        return None, tree;
      }
      var p: Path := [Name(root.value)];
      ghost var n, tail: Path := 0, [];
      RootStands(toks, old(pos), t);
      while toks[pos].Dot? || toks[pos].IndexTok?
        invariant Valid() && pos > old(pos) && failed == old(failed) && p == [Name(root.value)] + tail
        invariant GoodPath(tree) && Consumed(old(pos), PathToks(tree))
        invariant want.Some? ==>
                    && n <= |want.value.steps| && pos == old(pos) + 1 + |StepsToks(want.value.steps[..n])|
                    && StepsPath(env.names, want.value.steps[..n]) == Some(tail)
        decreases |toks| - pos
      {
        ghost var next: Option<Step> := None;
        if want.Some? {
          WholeSteps(want.value.steps, n);
          assert n < |want.value.steps|;
          next := Some(want.value.steps[n]);
          StepStands(toks, old(pos), want.value, n);
          StepsPathMore(env.names, want.value.steps, n);
        }
        ghost var before := pos;
        var seg, step := ParseStep(next);
        if seg.None? {
          if want.Some? {
            StepsFail(env.names, want.value.steps, n);
          }
          return None, tree;
        }
        PathGrows(toks, old(pos), tree, step);
        p, tail, n := p + [seg.value], tail + [seg.value], n + 1;
        tree := RawPath(tree.root, tree.steps + [step]);
      }
      if want.Some? {
        if n < |want.value.steps| {
          StepStands(toks, old(pos), want.value, n);
          StepOpens(toks, pos, want.value.steps[n]);
        }
        WholeSteps(want.value.steps, n);
      }
      return Some(p), tree;
    }

    method ResolveValue(ghost want: Option<ByteString>) returns (r: Option<Value>)
      requires Valid() && (want.Some? ==> toks[pos] == ValueRef(want.value))
      modifies this`pos, this`failed
      ensures Valid() && pos >= old(pos) && (r.Some? ==> pos > old(pos)) && (old(failed) ==> failed)
      ensures want.Some? && want.value in env.values ==>
                r == Some(env.values[want.value]) && pos == old(pos) + 1 && failed == old(failed)
      ensures want.Some? && want.value !in env.values ==> r.None? && failed
      ensures if r.None? then failed else toks[old(pos)].ValueRef? && pos == old(pos) + 1
    {
      hide EditAll, Within, Mentioned;
      var t := toks[pos];
      if !t.ValueRef? {
        failed := true;
        return None;
      }
      var skip := Advance();
      if t.text !in env.values {
        failed := true;
        return None;
      }
      return Some(env.values[t.text]);
    }

    /** A value, a path, if_not_exists(path, operand) or list_append(operand, operand). */
    method ParseOperand(ghost want: Option<Operand>) returns (r: Option<Value>, ghost tree: Operand)
      requires Valid() && OperandHere(want)
      modifies this`pos, this`failed
      ensures Valid() && pos >= old(pos) && (old(failed) ==> failed)
      ensures !failed ==> GoodOperand(tree) && Consumed(old(pos), OperandToks(tree))
      ensures want.Some? ==>
                Meets(EvalOperand(want.value, item, env), r, old(pos) + |OperandToks(want.value)|, old(failed))
      decreases |toks| - pos, 1
    {
      hide EditAll, Within, Mentioned, At, EvalSum, SumToks, GoodSum, PathOf, PathToks, ReadPath, Upper, GoodPath;
      if want.Some? {
        OperandOpens(toks, pos, want.value);
      }
      WordsDiffer(toks[pos]);
      var t := toks[pos];
      if t.ValueRef? {
        r := ResolveValue(if want.Some? && want.value.Val? then Some(want.value.text) else None);
        tree := Val(t.text);
        AtOne(toks, old(pos), t);
        return;
      }
      if IsWord(t, IF_NOT_EXISTS) && toks[pos + 1].LParen? {
        r, tree := IfNotExists(want);
        return;
      }
      if IsWord(t, LIST_APPEND) && toks[pos + 1].LParen? {
        r, tree := ListAppend(want);
        return;
      }
      if IsName(t) {
        var p, path := ParsePath(if want.Some? && want.value.Ref? then Some(want.value.path) else None);
        return if p.None? then None else ReadPath(item, p.value), Ref(path);
      }
      failed := true;
      r, tree := None, Val([]);
    }

    method IfNotExists(ghost want: Option<Operand>) returns (r: Option<Value>, ghost tree: Operand)
      requires Valid() && IsWord(toks[pos], IF_NOT_EXISTS) && pos + 1 < |toks| && toks[pos + 1].LParen?
      requires OperandHere(want) && (want.Some? ==> want.value.IfNot?)
      modifies this`pos, this`failed
      ensures Valid() && pos > old(pos) && (old(failed) ==> failed)
      ensures !failed ==> GoodOperand(tree) && Consumed(old(pos), OperandToks(tree))
      ensures want.Some? ==>
                Meets(EvalOperand(want.value, item, env), r, old(pos) + |OperandToks(want.value)|, old(failed))
      decreases |toks| - pos, 0
    {
      hide EditAll, Within, Mentioned, At, EvalSum, SumToks, OperandToks, GoodSum, PathOf, PathToks, ReadPath, IsWord,
          GoodPath;
      ghost var path: Option<RawPath>, fallbackWant: Option<Sum> := None, None;
      if want.Some? {
        path, fallbackWant := Some(want.value.path), Some(want.value.fallback);
        IfNotPieces(toks, pos, want.value);
      }
      var skip := Advance();
      skip := Advance();
      r, tree := None, Val([]);
      var p, pathTree := ParsePath(path);
      if p.None? {
        return;
      }
      if !toks[pos].Comma? {
        failed := true;
        return;
      }
      skip := Advance();
      var fallback, sumTree := ParseAdditive(fallbackWant);
      if !toks[pos].RParen? {
        failed := true;
        return;
      }
      skip := Advance();
      tree := IfNot(toks[old(pos)], pathTree, sumTree);
      if !failed {
        IfNotStands(toks, old(pos), tree);
      }
      var existing := ReadPath(item, p.value);
      r := if existing.Some? then existing else fallback;
    }

    /** An argument of list_append and the token that has to follow it. */
    method Argument(ghost want: Option<Sum>, close: Tok) returns (ok: bool, r: Option<Value>, ghost tree: Sum)
      requires Valid() && SumHere(want) && (close.Comma? || close.RParen?)
      requires want.Some? ==> toks[pos + |SumToks(want.value)|] == close
      modifies this`pos, this`failed
      ensures Valid() && pos >= old(pos) && (old(failed) ==> failed) && (!ok ==> failed)
      ensures !failed ==> GoodSum(tree) && Consumed(old(pos), SumToks(tree) + [close])
      ensures want.Some? ==>
                if EvalSum(want.value, item, env).Error? then failed
                else (&& ok && OutcomeOf(r) == EvalSum(want.value, item, env)
                      && pos == old(pos) + |SumToks(want.value)| + 1 && failed == old(failed))
      decreases |toks| - pos, 3
    {
      hide EditAll, Within, Mentioned, At, EvalSum, SumToks, GoodSum;
      r, tree := ParseAdditive(want);
      ok := toks[pos] == close;
      if !ok {
        failed := true;
        return;
      }
      var skip := Advance();
      if !failed {
        AtOne(toks, old(pos) + |SumToks(tree)|, close);
        AtSplits(toks, old(pos), SumToks(tree), [close]);
      }
    }

    method ListAppend(ghost want: Option<Operand>) returns (r: Option<Value>, ghost tree: Operand)
      requires Valid() && IsWord(toks[pos], LIST_APPEND) && pos + 1 < |toks| && toks[pos + 1].LParen?
      requires OperandHere(want) && (want.Some? ==> want.value.Append?)
      modifies this`pos, this`failed
      ensures Valid() && pos > old(pos) && (old(failed) ==> failed)
      ensures !failed ==> GoodOperand(tree) && Consumed(old(pos), OperandToks(tree))
      ensures want.Some? ==>
                Meets(EvalOperand(want.value, item, env), r, old(pos) + |OperandToks(want.value)|, old(failed))
      decreases |toks| - pos, 0
    {
      hide EditAll, Within, Mentioned, At, EvalSum, SumToks, OperandToks, GoodSum, GoodOperand, EvalOperand;
      ghost var first: Option<Sum>, second: Option<Sum> := None, None;
      if want.Some? {
        first, second := Some(want.value.a), Some(want.value.b);
        AppendPieces(toks, pos, want.value);
        AppendMeans(want.value, item, env);
      }
      if want.Some? && EvalSum(want.value.a, item, env).Error? {
        second := None;
      }
      var skip := Advance();
      skip := Advance();
      r, tree := None, Val([]);
      var ok, a, aTree := Argument(first, Comma);
      if !ok {
        return;
      }
      var closed, b, bTree := Argument(second, RParen);
      if !closed {
        return;
      }
      if a.None? || b.None? || !a.value.L? || !b.value.L? {
        failed := true;
        return;
      }
      tree := Append(toks[old(pos)], aTree, bTree);
      if !failed {
        AppendStands(toks, old(pos), tree);
      }
      r := Some(L(a.value.elems + b.value.elems));
    }

    /** The next operator and operand, combined with what is on their left. */
    method ParseTerm(left: Option<Value>, ghost want: Option<Term>) returns (r: Option<Value>, ghost tree: Term)
      requires Valid() && toks[pos].Op? && (toks[pos].c == 43 || toks[pos].c == 45)
      requires want.Some? ==>
                 var n := |OperandToks(want.value.o)|;
                 && GoodOperand(want.value.o) && toks[pos] == Op(if want.value.plus then 43 else 45)
                 && Stands(toks, pos + 1, OperandToks(want.value.o)) && Closes(toks[pos + 1 + n])
      modifies this`pos, this`failed
      ensures Valid() && pos > old(pos) && (old(failed) ==> failed) && (r.None? ==> failed)
      ensures !failed ==> GoodOperand(tree.o) && Consumed(old(pos), TermToks(tree))
      ensures want.Some? ==>
                Meets(Combine(want.value.plus, OutcomeOf(left), EvalOperand(want.value.o, item, env), env.arithmetic),
                      r, old(pos) + 1 + |OperandToks(want.value.o)|, old(failed))
      decreases |toks| - pos, 0
    {
      hide EditAll, Within, Mentioned, At, EvalOperand, OperandToks, GoodOperand;
      var op := Advance();
      r := None;
      var right, o := ParseOperand(if want.Some? then Some(want.value.o) else None);
      tree := Term(op.c == 43, o);
      if !failed {
        AtOne(toks, old(pos), op);
        AtSplits(toks, old(pos), [op], OperandToks(o));
      }
      if left.None? || right.None? || !left.value.N? || !right.value.N? {
        failed := true;
        return;
      }
      var n := if op.c == 43 then env.arithmetic.plus(left.value.n, right.value.n)
          else env.arithmetic.minus(left.value.n, right.value.n);
      if n.None? {
        failed := true;
        return;
      }
      r := Some(N(n.value));
    }

    /** Operands joined by + and -, from the left. */
    method ParseAdditive(ghost want: Option<Sum>) returns (left: Option<Value>, ghost tree: Sum)
      requires Valid() && SumHere(want)
      modifies this`pos, this`failed
      ensures Valid() && pos >= old(pos) && (old(failed) ==> failed)
      ensures !failed ==> GoodSum(tree) && Consumed(old(pos), SumToks(tree))
      ensures want.Some? ==> Meets(EvalSum(want.value, item, env), left, old(pos) + |SumToks(want.value)|, old(failed))
      decreases |toks| - pos, 2
    {
      hide EditAll, Within, Mentioned, At, EvalOperand, OperandToks, TermToks, TermsToks, GoodOperand, EvalTerms,
          EvalTerm, Combine;
      ghost var end := if want.Some? then old(pos) + |SumToks(want.value)| else 0;
      ghost var spec := if want.Some? then EvalSum(want.value, item, env) else Error;
      ghost var terms: seq<Term> := [];
      ghost var live := want.Some?;
      if want.Some? {
        SumPieces(toks, pos, want.value);
        terms := want.value.rest;
        TermsErr(EvalOperand(want.value.first, item, env), terms, item, env);
        live := !EvalOperand(want.value.first, item, env).Error?;
      }
      ghost var first;
      left, first := ParseOperand(if want.Some? then Some(want.value.first) else None);
      tree := Sum(first, []);
      SumStarts(first);
      while toks[pos].Op? && (toks[pos].c == 43 || toks[pos].c == 45)
        invariant Valid() && pos >= old(pos) && (old(failed) ==> failed)
        invariant live ==> TermsHere(terms, end) && failed == old(failed) && want.Some?
        invariant live ==> EvalTerms(OutcomeOf(left), terms, item, env) == spec
        invariant want.Some? && !live ==> failed && spec.Error?
        invariant !failed ==> GoodSum(tree) && Consumed(old(pos), SumToks(tree))
        decreases |toks| - pos
      {
        ghost var next: Option<Term> := None;
        if live {
          TermsStop(toks, pos, terms);
          TermPieces(toks, pos, terms);
          TermStep(OutcomeOf(left), terms, item, env);
          next := Some(terms[0]);
          live := !Combine(terms[0].plus, OutcomeOf(left), EvalOperand(terms[0].o, item, env), env.arithmetic).Error?;
        }
        ghost var term;
        left, term := ParseTerm(left, next);
        if left.None? {
          return;
        }
        if !failed {
          SumGrows(toks, old(pos), tree, term);
        }
        tree := Sum(tree.first, tree.rest + [term]);
        terms := if live then terms[1..] else terms;
      }
      if live {
        TermsStop(toks, pos, terms);
        NoTerms(OutcomeOf(left), terms, item, env);
      }
    }

    /** The terms still to come stand here and end at `end`. */
    ghost predicate TermsHere(terms: seq<Term>, end: nat)
      reads this
    {
      && (forall i | 0 <= i < |terms| :: GoodOperand(terms[i].o))
      && Stands(toks, pos, TermsToks(terms)) && pos + |TermsToks(terms)| == end && ClosesSum(toks[end])
    }

    // ---- Actions -----------------------------------------------------------------------------------

    /** write_path on the working item. */
    method Write(p: Path, v: Value) returns (ok: bool)
      requires Valid() && p != [] && p[0].Name? && p[0].name in Roots()
      modifies this`item, this`failed, this`edits
      ensures Valid() && ok == WritePath(old(item), p, v).Some?
      ensures ok ==>
              WritePath(old(item), p, v) == Some(item) && edits == old(edits) + [Wrote(p, v)] && failed == old(failed)
      ensures !ok ==> failed && item == old(item) && edits == old(edits)
    {
      hide WritePath, EditAll, Mentioned;
      var r := WritePath(item, p, v);
      ok := r.Some?;
      if ok {
        EditOneMore(start, edits, Wrote(p, v));
        WithinOneMore(edits, Roots(), Wrote(p, v));
        hide Within;
        item := r.value;
        edits := edits + [Wrote(p, v)];
      } else {
        failed := true;
      }
    }

    method Erase(p: Path)
      requires Valid() && p != [] && p[0].Name? && p[0].name in Roots()
      modifies this`item, this`edits
      ensures Valid() && item == ErasePath(old(item), p) && edits == old(edits) + [Erased(p)]
    {
      hide ErasePath, EditAll, Mentioned;
      EditOneMore(start, edits, Erased(p));
      WithinOneMore(edits, Roots(), Erased(p));
      hide Within;
      item := ErasePath(item, p);
      edits := edits + [Erased(p)];
    }

    /** The tokens of an action stand here, followed by a comma, a keyword or the end. */
    ghost predicate ActionHere(want: Option<Action>)
      reads this
    {
      want.Some? ==>
        var n := |ActionToks(want.value)|;
        GoodAction(want.value) && Stands(toks, pos, ActionToks(want.value)) && EndsAction(toks[pos + n]) && !failed
    }

    /** The action happened, or it failed. */
    ghost predicate Done(spec: Option<Item>, ok: bool, end: nat)
      reads this
    {
      (ok <==> spec.Some?) && (ok ==> item == spec.value && pos == end && !failed)
    }

    method SetOne(ghost want: Option<Action>) returns (ok: bool, ghost tree: Action)
      requires Valid() && ActionHere(want) && (want.Some? ==> want.value.Assign?)
      modifies this
      ensures Valid() && pos >= old(pos) && (ok ==> pos > old(pos))
      ensures ok ==> tree.Assign? && GoodAction(tree) && Consumed(old(pos), ActionToks(tree))
      ensures want.Some? ==> Done(EvalAction(want.value, old(item), env), ok, old(pos) + |ActionToks(want.value)|)
    {
      hide EditAll, Within, Mentioned, At, PathToks, SumToks, GoodSum, GoodPath, PathOf, EvalSum, WritePath;
      ghost var path: Option<RawPath>, sum: Option<Sum> := None, None;
      if want.Some? {
        path, sum := Some(want.value.a.path), Some(want.value.a.value);
        AssignPieces(toks, pos, want.value.a);
      }
      ok, tree := false, NO_ACTION;
      var target, pathTree := ParsePath(path);
      if target.None? {
        return;
      }
      if !(toks[pos].Op? && toks[pos].c == 61) {
        failed := true;
        return;
      }
      var skip := Advance();
      var value, sumTree := ParseAdditive(sum);
      if failed {
        return;
      }
      tree := Assign(Assignment(pathTree, sumTree));
      AssignStands(toks, old(pos), pathTree, sumTree);
      if value.None? {
        failed := true;
        return;
      }
      ok := Write(target.value, value.value);
    }

    method RemoveOne(ghost want: Option<Action>) returns (ok: bool, ghost tree: Action)
      requires Valid() && ActionHere(want) && (want.Some? ==> want.value.Drop?)
      modifies this
      ensures Valid() && pos >= old(pos) && (ok ==> pos > old(pos))
      ensures ok ==> tree.Drop? && GoodAction(tree) && Consumed(old(pos), ActionToks(tree))
      ensures want.Some? ==> Done(EvalAction(want.value, old(item), env), ok, old(pos) + |ActionToks(want.value)|)
    {
      hide EditAll, Within, Mentioned, At, PathToks, GoodPath, PathOf, ErasePath;
      var target, path := ParsePath(if want.Some? then Some(want.value.p) else None);
      tree := Drop(path);
      if target.None? {
        return false, tree;
      }
      Erase(target.value);
      ok := true;
    }

    method AddOne(ghost want: Option<Action>) returns (ok: bool, ghost tree: Action)
      requires Valid() && ActionHere(want) && (want.Some? ==> want.value.AddTo?)
      modifies this
      ensures Valid() && pos >= old(pos) && (ok ==> pos > old(pos))
      ensures ok ==> tree.AddTo? && GoodAction(tree) && Consumed(old(pos), ActionToks(tree))
      ensures want.Some? ==> Done(EvalAction(want.value, old(item), env), ok, old(pos) + |ActionToks(want.value)|)
    {
      hide EditAll, Within, Mentioned, At, PathToks, GoodPath, PathOf, ReadPath, WritePath, Added;
      ghost var path: Option<RawPath>, text: Option<ByteString> := None, None;
      if want.Some? {
        path, text := Some(want.value.pv.path), Some(want.value.pv.text);
        PairPieces(toks, pos, want.value.pv);
      }
      ok, tree := false, NO_ACTION;
      var target, pathTree := ParsePath(path);
      if target.None? {
        return;
      }
      var t := toks[pos];
      var operand := ResolveValue(text);
      if operand.None? {
        return;
      }
      tree := AddTo(PathValue(pathTree, t.text));
      PairStands(toks, old(pos), pathTree, t);
      var value := AddedTo(ReadPath(item, target.value), operand.value, env.arithmetic);
      if value.None? {
        failed := true;
        return;
      }
      ok := Write(target.value, value.value);
    }

    method DeleteOne(ghost want: Option<Action>) returns (ok: bool, ghost tree: Action)
      requires Valid() && ActionHere(want) && (want.Some? ==> want.value.DeleteFrom?)
      modifies this
      ensures Valid() && pos >= old(pos) && (ok ==> pos > old(pos))
      ensures ok ==> tree.DeleteFrom? && GoodAction(tree) && Consumed(old(pos), ActionToks(tree))
      ensures want.Some? ==> Done(EvalAction(want.value, old(item), env), ok, old(pos) + |ActionToks(want.value)|)
    {
      hide EditAll, Within, Mentioned, At, PathToks, GoodPath, PathOf, ReadPath, WritePath, ErasePath, Remaining;
      ghost var path: Option<RawPath>, text: Option<ByteString> := None, None;
      if want.Some? {
        path, text := Some(want.value.pv.path), Some(want.value.pv.text);
        PairPieces(toks, pos, want.value.pv);
      }
      ok, tree := false, NO_ACTION;
      var target, pathTree := ParsePath(path);
      if target.None? {
        return;
      }
      var t := toks[pos];
      var operand := ResolveValue(text);
      if operand.None? {
        return;
      }
      tree := DeleteFrom(PathValue(pathTree, t.text));
      PairStands(toks, old(pos), pathTree, t);
      var left := LeftOf(ReadPath(item, target.value), operand.value);
      if left.None? {
        return true, tree;
      }
      if left.value == SS([]) || left.value == NS([]) {
        Erase(target.value);
        return true, tree;
      }
      ok := Write(target.value, left.value);
    }

    method OneAction(section: Section, ghost want: Option<Action>) returns (ok: bool, ghost tree: Action)
      requires Valid() && ActionHere(want) && (want.Some? ==> SectionOf(want.value) == section)
      modifies this
      ensures Valid() && pos >= old(pos) && (ok ==> pos > old(pos))
      ensures ok ==> SectionOf(tree) == section && GoodAction(tree) && Consumed(old(pos), ActionToks(tree))
      ensures want.Some? ==> Done(EvalAction(want.value, old(item), env), ok, old(pos) + |ActionToks(want.value)|)
    {
      hide EditAll, Within, Mentioned, At, ActionToks, EvalAction, GoodAction;
      match section {
        case SetSection => ok, tree := SetOne(want);
        case RemoveSection => ok, tree := RemoveOne(want);
        case AddSection => ok, tree := AddOne(want);
        case DeleteSection => ok, tree := DeleteOne(want);
      }
    }

    /** do_set, do_remove, do_add and do_delete: actions of one kind, separated by commas. */
    method DoSection(section: Section, ghost want: Option<seq<Action>>) returns (ok: bool, ghost tree: seq<Action>)
      requires Valid()
      requires want.Some? ==> GoodClause(want.value) && SectionOf(want.value[0]) == section && ActionsHere(want.value)
      modifies this
      ensures Valid() && pos >= old(pos)
      ensures want.Some? ==> Done(EvalActions(want.value, old(item), env), ok, old(pos) + |ActionsToks(want.value)|)
      ensures ok ==> GoodClause(tree) && SectionOf(tree[0]) == section && Consumed(old(pos), ActionsToks(tree))
    {
      hide EditAll, Within, Mentioned, At, Stands, SectionOf, ActionToks, ActionsToks;
      hide EvalAction, EvalActions, GoodAction;
      tree := [];
      ghost var left: seq<Action> := if want.Some? then want.value else [];
      ghost var end := if want.Some? then old(pos) + |ActionsToks(want.value)| else 0;
      while true
        invariant Valid() && pos >= old(pos)
        invariant want.Some? ==>
                    && GoodClause(left) && SectionOf(left[0]) == section && ActionsHere(left)
                    && pos + |ActionsToks(left)| == end
                    && EvalActions(left, item, env) == EvalActions(want.value, old(item), env)
        invariant if tree == [] then pos == old(pos)
                  else (&& GoodClause(tree) && SectionOf(tree[0]) == section
                        && Consumed(old(pos), ActionsToks(tree) + [Comma]))
        decreases |toks| - pos
      {
        ghost var next: Option<Action> := None;
        if want.Some? {
          ActionPieces(toks, pos, left);
          ActionStep(left, item, env);
          next := Some(left[0]);
        }
        ghost var action;
        ok, action := OneAction(section, next);
        if !ok {
          return;
        }
        ClauseGrows(toks, old(pos), tree, action);
        tree := tree + [action];
        if !toks[pos].Comma? {
          return;
        }
        AtOne(toks, pos, Comma);
        AtSplits(toks, old(pos), ActionsToks(tree), [Comma]);
        var skip := Advance();
        left := if want.Some? then left[1..] else left;
      }
    }

    ghost predicate ActionsHere(xs: seq<Action>)
      reads this
    {
      && Stands(toks, pos, ActionsToks(xs)) && EndsClause(toks[pos + |ActionsToks(xs)|]) && !failed
    }

    /** The whole expression: on the tokens of one, its meaning. */
    method RunAll(ghost want: Option<seq<seq<Action>>>) returns (ok: bool, ghost tree: seq<seq<Action>>)
      requires Valid()
      requires want.Some? ==> GoodClauses(want.value) && At(toks, pos, UpdateToks(want.value)) && !failed
      modifies this
      ensures Valid()
      ensures want.Some? && want.value != [] ==>
                (ok <==> EvalUpdate(want.value, old(item), env).Some?)
                && (ok ==> item == EvalUpdate(want.value, old(item), env).value)
      ensures ok ==> tree != [] && GoodClauses(tree) && At(toks, old(pos), UpdateToks(tree))
    {
      hide EditAll, Within, Mentioned, At, ActionsToks, UpdateToks, ClausesToks, EvalActions, EvalUpdate, GoodClause;
      tree, ok := [], false;
      NothingConsumed(toks, pos);
      ghost var left: seq<seq<Action>> := if want.Some? then want.value else [];
      if want.Some? {
        UpdatePieces(toks, pos, left);
      }
      if toks[pos].End? {
        failed := true;
        return;
      }
      while toks[pos].Keyword?
        invariant Valid() && GoodClauses(tree) && Consumed(old(pos), ClausesToks(tree))
        invariant tree == [] ==> !toks[pos].End?
        invariant want.Some? ==>
                    && GoodClauses(left) && At(toks, pos, UpdateToks(left)) && !failed
                    && EvalUpdate(left, item, env) == EvalUpdate(want.value, old(item), env)
        decreases |toks| - pos
      {
        ghost var next: Option<seq<Action>> := None;
        if want.Some? {
          UpdatePieces(toks, pos, left);
          ClauseStep(left, item, env);
          next := Some(left[0]);
        }
        var word := Advance();
        ghost var clause;
        ok, clause := DoSection(word.section, next);
        if !ok {
          return;
        }
        UpdateGrows(toks, old(pos), tree, clause);
        tree := tree + [clause];
        left := if want.Some? then left[1..] else left;
      }
      if want.Some? {
        UpdatePieces(toks, pos, left);
        NoClauses(left, item, env);
      }
      if !toks[pos].End? {
        failed := true;
        return false, tree;
      }
      UpdateEnds(toks, old(pos), tree);
      ok := true;
    }
  }

  // ---- What has been read is a syntax tree ---------------------------------------------------------

  lemma RootStands(toks: seq<Tok>, pos: nat, t: Tok)
    requires pos < |toks| && toks[pos] == t && IsName(t)
    ensures GoodPath(RawPath(t, [])) && At(toks, pos, PathToks(RawPath(t, []))) && |PathToks(RawPath(t, []))| == 1
  {
    AtOne(toks, pos, t);
    assert PathToks(RawPath(t, [])) == [t];
  }

  lemma PathGrows(toks: seq<Tok>, pos: nat, p: RawPath, s: Step)
    requires GoodPath(p) && At(toks, pos, PathToks(p)) && StepHere(toks, pos + |PathToks(p)|, s)
    ensures var longer := RawPath(p.root, p.steps + [s]);
            && GoodPath(longer) && At(toks, pos, PathToks(longer))
                && |PathToks(longer)| == |PathToks(p)| + |StepToks(s)|
  {
    hide At;
    var longer := RawPath(p.root, p.steps + [s]);
    assert longer.steps[..|p.steps|] == p.steps;
    var q := pos + |PathToks(p)|;
    match s {
      case ByName(t) =>
        AtOne(toks, q, Dot);
        AtOne(toks, q + 1, t);
        AtSplits(toks, q, [Dot], [t]);
        assert [Dot] + [t] == [Dot, t];
      case ByIndex(i) => AtOne(toks, q, IndexTok(i));
    }
    AtSplits(toks, pos, PathToks(p), StepToks(s));
    assert PathToks(longer) == PathToks(p) + StepToks(s);
  }

  lemma IfNotStands(toks: seq<Tok>, pos: nat, o: Operand)
    requires o.IfNot? && IsWord(o.word, IF_NOT_EXISTS) && GoodPath(o.path) && GoodSum(o.fallback)
    requires pos + 1 < |toks| && toks[pos] == o.word && toks[pos + 1] == LParen
    requires At(toks, pos + 2, PathToks(o.path))
    requires var q := pos + 2 + |PathToks(o.path)|;
             && q < |toks| && toks[q] == Comma && At(toks, q + 1, SumToks(o.fallback))
             && q + 1 + |SumToks(o.fallback)| < |toks| && toks[q + 1 + |SumToks(o.fallback)|] == RParen
    ensures GoodOperand(o) && At(toks, pos, OperandToks(o))
    ensures |OperandToks(o)| == 2 + |PathToks(o.path)| + 1 + |SumToks(o.fallback)| + 1
  {
    hide At, PathToks, SumToks, IsWord, GoodPath, GoodSum;
    var p, f := PathToks(o.path), SumToks(o.fallback);
    TwoStand(toks, pos, o.word, LParen);
    AtSplits(toks, pos, [o.word, LParen], p);
    AtOne(toks, pos + 2 + |p|, Comma);
    AtSplits(toks, pos, [o.word, LParen] + p, [Comma]);
    AtSplits(toks, pos, [o.word, LParen] + p + [Comma], f);
    AtOne(toks, pos + 2 + |p| + 1 + |f|, RParen);
    AtSplits(toks, pos, [o.word, LParen] + p + [Comma] + f, [RParen]);
  }

  lemma TwoStand(toks: seq<Tok>, pos: nat, a: Tok, b: Tok)
    requires pos + 1 < |toks| && toks[pos] == a && toks[pos + 1] == b
    ensures At(toks, pos, [a, b])
  {
  }

  lemma AppendStands(toks: seq<Tok>, pos: nat, o: Operand)
    requires o.Append? && IsWord(o.word, LIST_APPEND) && GoodSum(o.a) && GoodSum(o.b)
    requires pos + 1 < |toks| && toks[pos] == o.word && toks[pos + 1] == LParen
    requires At(toks, pos + 2, SumToks(o.a) + [Comma])
    requires At(toks, pos + 2 + |SumToks(o.a) + [Comma]|, SumToks(o.b) + [RParen])
    ensures GoodOperand(o) && At(toks, pos, OperandToks(o))
    ensures |OperandToks(o)| == 2 + |SumToks(o.a) + [Comma]| + |SumToks(o.b) + [RParen]|
  {
    hide At, SumToks, IsWord, GoodSum;
    var a, b := SumToks(o.a) + [Comma], SumToks(o.b) + [RParen];
    TwoStand(toks, pos, o.word, LParen);
    AtSplits(toks, pos, [o.word, LParen], a);
    AtSplits(toks, pos, [o.word, LParen] + a, b);
    assert OperandToks(o) == [o.word, LParen] + a + b;
  }

  lemma SumStarts(first: Operand)
    ensures GoodOperand(first) ==> GoodSum(Sum(first, []))
    ensures SumToks(Sum(first, [])) == OperandToks(first)
  {
    hide OperandToks, GoodOperand;
  }

  lemma {:induction false} TermsAppend(ts: seq<Term>, t: Term)
    ensures TermsToks(ts + [t]) == TermsToks(ts) + TermToks(t)
    decreases |ts|
  {
    hide TermToks;
    if ts == [] {
      assert ts + [t] == [t] && [t][1..] == [];
    } else {
      TermsAppend(ts[1..], t);
      assert (ts + [t])[0] == ts[0] && (ts + [t])[1..] == ts[1..] + [t];
    }
  }

  lemma SumGrows(toks: seq<Tok>, pos: nat, s: Sum, t: Term)
    requires GoodSum(s) && At(toks, pos, SumToks(s)) && GoodOperand(t.o) && At(toks, pos + |SumToks(s)|, TermToks(t))
    ensures var longer := Sum(s.first, s.rest + [t]);
            && GoodSum(longer) && At(toks, pos, SumToks(longer)) && |SumToks(longer)| == |SumToks(s)| + |TermToks(t)|
  {
    hide At, OperandToks, TermToks, TermsToks, GoodOperand;
    TermsAppend(s.rest, t);
    AtSplits(toks, pos, SumToks(s), TermToks(t));
    assert SumToks(Sum(s.first, s.rest + [t])) == SumToks(s) + TermToks(t);
  }

  lemma AssignStands(toks: seq<Tok>, pos: nat, p: RawPath, v: Sum)
    requires At(toks, pos, PathToks(p)) && pos + |PathToks(p)| < |toks| && toks[pos + |PathToks(p)|] == Op(61)
    requires At(toks, pos + |PathToks(p)| + 1, SumToks(v))
    ensures At(toks, pos, ActionToks(Assign(Assignment(p, v))))
    ensures |ActionToks(Assign(Assignment(p, v)))| == |PathToks(p)| + 1 + |SumToks(v)|
  {
    hide At, PathToks, SumToks;
    AtOne(toks, pos + |PathToks(p)|, Op(61));
    AtSplits(toks, pos, PathToks(p), [Op(61)]);
    AtSplits(toks, pos, PathToks(p) + [Op(61)], SumToks(v));
  }

  lemma PairStands(toks: seq<Tok>, pos: nat, p: RawPath, t: Tok)
    requires At(toks, pos, PathToks(p)) && pos + |PathToks(p)| < |toks| && toks[pos + |PathToks(p)|] == t && t.ValueRef?
    ensures At(toks, pos, PathToks(p) + [ValueRef(t.text)])
  {
    hide At, PathToks;
    AtOne(toks, pos + |PathToks(p)|, t);
    AtSplits(toks, pos, PathToks(p), [t]);
  }

  lemma {:induction false} ActionsAppend(xs: seq<Action>, x: Action)
    ensures ActionsToks(xs + [x]) == (if xs == [] then [] else ActionsToks(xs) + [Comma]) + ActionToks(x)
    decreases |xs|
  {
    hide ActionToks;
    if xs == [] {
      assert xs + [x] == [x];
    } else {
      ActionsAppend(xs[1..], x);
      assert (xs + [x])[0] == xs[0] && (xs + [x])[1..] == xs[1..] + [x];
    }
  }

  lemma ClauseGrows(toks: seq<Tok>, pos: nat, xs: seq<Action>, x: Action)
    requires GoodAction(x) && (xs != [] ==> GoodClause(xs) && SectionOf(xs[0]) == SectionOf(x))
    requires var read := if xs == [] then [] else ActionsToks(xs) + [Comma];
             (xs != [] ==> At(toks, pos, read)) && At(toks, pos + |read|, ActionToks(x))
    ensures var read := if xs == [] then [] else ActionsToks(xs) + [Comma];
            && GoodClause(xs + [x]) && SectionOf((xs + [x])[0]) == SectionOf(x)
            && At(toks, pos, ActionsToks(xs + [x])) && |ActionsToks(xs + [x])| == |read| + |ActionToks(x)|
  {
    hide At, ActionToks, ActionsToks, GoodAction;
    ActionsAppend(xs, x);
    if xs != [] {
      AtSplits(toks, pos, ActionsToks(xs) + [Comma], ActionToks(x));
    } else {
      assert [] + ActionToks(x) == ActionToks(x);
    }
  }

  /** The tokens of the clauses, without the End behind them. */
  function ClausesToks(clauses: seq<seq<Action>>): (r: seq<Tok>)
    requires GoodClauses(clauses)
  {
    if clauses == [] then []
    else
      assert GoodClause(clauses[0]);
      [Keyword(SectionOf(clauses[0][0]))] + ActionsToks(clauses[0]) + ClausesToks(clauses[1..])
  }

  lemma {:induction false} ClausesEnd(clauses: seq<seq<Action>>)
    requires GoodClauses(clauses)
    ensures UpdateToks(clauses) == ClausesToks(clauses) + [End]
    decreases |clauses|
  {
    hide ActionsToks, GoodClause;
    if clauses != [] {
      ClausesEnd(clauses[1..]);
    }
  }

  lemma {:induction false} ClausesAppend(clauses: seq<seq<Action>>, c: seq<Action>)
    requires GoodClauses(clauses) && GoodClause(c)
    ensures GoodClauses(clauses + [c])
    ensures ClausesToks(clauses + [c]) == ClausesToks(clauses) + ([Keyword(KindOf(c))] + ActionsToks(c))
    decreases |clauses|
  {
    hide ActionsToks, GoodClause;
    KindIs(c);
    if clauses == [] {
      assert clauses + [c] == [c] && [c][1..] == [];
    } else {
      ClausesAppend(clauses[1..], c);
      assert (clauses + [c])[0] == clauses[0] && (clauses + [c])[1..] == clauses[1..] + [c];
    }
  }

  lemma NothingConsumed(toks: seq<Tok>, pos: nat)
    requires pos < |toks|
    ensures At(toks, pos, ClausesToks([])) && |ClausesToks([])| == 0
  {
  }

  lemma UpdateGrows(toks: seq<Tok>, pos: nat, clauses: seq<seq<Action>>, c: seq<Action>)
    requires GoodClauses(clauses) && GoodClause(c) && At(toks, pos, ClausesToks(clauses))
    requires var q := pos + |ClausesToks(clauses)|;
             q < |toks| && toks[q] == Keyword(SectionOf(c[0])) && At(toks, q + 1, ActionsToks(c))
    ensures GoodClauses(clauses + [c]) && At(toks, pos, ClausesToks(clauses + [c]))
    ensures |ClausesToks(clauses + [c])| == |ClausesToks(clauses)| + 1 + |ActionsToks(c)|
  {
    hide At, ActionsToks, ClausesToks, GoodClause;
    KindIs(c);
    ClausesAppend(clauses, c);
    var q, k: Tok := pos + |ClausesToks(clauses)|, Keyword(KindOf(c));
    AtOne(toks, q, k);
    AtSplits(toks, q, [k], ActionsToks(c));
    AtSplits(toks, pos, ClausesToks(clauses), [k] + ActionsToks(c));
  }

  lemma UpdateEnds(toks: seq<Tok>, pos: nat, clauses: seq<seq<Action>>)
    requires GoodClauses(clauses) && At(toks, pos, ClausesToks(clauses))
    requires pos + |ClausesToks(clauses)| < |toks| && toks[pos + |ClausesToks(clauses)|] == End
    ensures At(toks, pos, UpdateToks(clauses))
  {
    hide At, ClausesToks, UpdateToks, GoodClause;
    ClausesEnd(clauses);
    AtOne(toks, pos + |ClausesToks(clauses)|, End);
    AtSplits(toks, pos, ClausesToks(clauses), [End]);
  }

  /** A tree's tokens end at End, and so do all tokens, so nothing is left over. */
  lemma WholeTree(toks: seq<Tok>, clauses: seq<seq<Action>>)
    requires WellFormed(toks) && GoodClauses(clauses) && At(toks, 0, UpdateToks(clauses))
    ensures toks == UpdateToks(clauses)
  {
    hide ClausesToks, UpdateToks, GoodClause;
    ClausesEnd(clauses);
    var ts := UpdateToks(clauses);
    assert ts[|ts| - 1] == End && toks[..|ts|] == ts;
    assert toks[|ts| - 1] == ts[|ts| - 1];
  }

  lemma NoSteps(names: Names, steps: seq<Step>)
    ensures |StepsToks(steps[..0])| == 0 && StepsPath(names, steps[..0]) == Some([])
  {
  }

  lemma WholeSteps(steps: seq<Step>, n: nat)
    requires n <= |steps|
    ensures n == |steps| ==> steps[..n] == steps
  {
  }

  /** The tokens of a step stand here. */
  predicate StepHere(toks: seq<Tok>, q: nat, s: Step) {
    match s
    case ByName(t) => q + 1 < |toks| && toks[q] == Dot && toks[q + 1] == t && IsName(t)
    case ByIndex(i) => q < |toks| && toks[q] == IndexTok(i)
  }

  lemma StepOpens(toks: seq<Tok>, q: nat, s: Step)
    requires StepHere(toks, q, s)
    ensures q < |toks| && (toks[q].Dot? || toks[q].IndexTok?)
  {
  }

  lemma StepStands(toks: seq<Tok>, pos: nat, p: RawPath, n: nat)
    requires GoodPath(p) && At(toks, pos, PathToks(p)) && n < |p.steps|
    ensures |StepsToks(p.steps[..n + 1])| == |StepsToks(p.steps[..n])| + |StepToks(p.steps[n])|
    ensures StepHere(toks, pos + 1 + |StepsToks(p.steps[..n])|, p.steps[n])
  {
    hide At;
    StepAt(toks, pos, p, n);
    var q := pos + 1 + |StepsToks(p.steps[..n])|;
    match p.steps[n] {
      case ByName(t) =>
        AtSplits(toks, q, [Dot], [t]);
        assert [Dot] + [t] == [Dot, t];
        AtOne(toks, q, Dot);
        AtOne(toks, q + 1, t);
      case ByIndex(i) => AtOne(toks, q, IndexTok(i));
    }
  }

  /** How the tokens of an operand begin. */
  lemma OperandOpens(toks: seq<Tok>, pos: nat, o: Operand)
    requires GoodOperand(o) && Stands(toks, pos, OperandToks(o)) && Closes(toks[pos + |OperandToks(o)|])
    ensures match o
            case Val(text) => toks[pos] == ValueRef(text) && |OperandToks(o)| == 1
            case Ref(p) => IsName(toks[pos]) && pos + 1 < |toks| && !toks[pos + 1].LParen?
            case IfNot(word, _, _) => pos + 1 < |toks| && toks[pos] == word && toks[pos + 1] == LParen
            case Append(word, _, _) => pos + 1 < |toks| && toks[pos] == word && toks[pos + 1] == LParen
  {
    hide SumToks, PathToks, At;
    match o
    case Val(text) => AtOne(toks, pos, ValueRef(text));
    case Ref(p) => RefOpens(toks, pos, p);
    case IfNot(_, _, _) => IfNotPieces(toks, pos, o);
    case Append(_, _, _) => AppendPieces(toks, pos, o);
  }

  lemma WordsDiffer(t: Tok)
    ensures !(IsWord(t, IF_NOT_EXISTS) && IsWord(t, LIST_APPEND))
  {
  }

  // ---- Steps of a sum ------------------------------------------------------------------------------

  /** With terms to come an operator stands here; without, none does. */
  lemma TermsStop(toks: seq<Tok>, pos: nat, ts: seq<Term>)
    requires Stands(toks, pos, TermsToks(ts)) && ClosesSum(toks[pos + |TermsToks(ts)|])
    ensures ts != [] <==> toks[pos].Op? && (toks[pos].c == 43 || toks[pos].c == 45)
    ensures ts == [] ==> |TermsToks(ts)| == 0
  {
    TermsOpen(toks, pos, ts);
  }

  lemma TermStep(acc: Outcome, ts: seq<Term>, item: Item, env: Env)
    requires ts != [] && forall i | 0 <= i < |ts| :: GoodOperand(ts[i].o)
    ensures var next := Combine(ts[0].plus, acc, EvalOperand(ts[0].o, item, env), env.arithmetic);
            EvalTerms(acc, ts, item, env) == EvalTerms(next, ts[1..], item, env)
            && !next.Absent? && (next.Error? ==> EvalTerms(acc, ts, item, env).Error?)
  {
    hide EvalOperand;
    ErrorsStay(ts[1..], item, env);
  }

  lemma TermsErr(acc: Outcome, ts: seq<Term>, item: Item, env: Env)
    requires forall i | 0 <= i < |ts| :: GoodOperand(ts[i].o)
    ensures acc.Error? ==> EvalTerms(acc, ts, item, env).Error?
  {
    if acc.Error? {
      ErrorsStay(ts, item, env);
    }
  }

  lemma NoTerms(acc: Outcome, ts: seq<Term>, item: Item, env: Env)
    requires forall i | 0 <= i < |ts| :: GoodOperand(ts[i].o)
    ensures ts == [] ==> EvalTerms(acc, ts, item, env) == acc
  {
  }

  // ---- Steps of an expression ----------------------------------------------------------------------

  predicate EndsAction(t: Tok) {
    t.Comma? || t.Keyword? || t.End?
  }

  predicate EndsClause(t: Tok) {
    t.Keyword? || t.End?
  }

  predicate GoodClauses(clauses: seq<seq<Action>>) {
    forall i | 0 <= i < |clauses| :: GoodClause(clauses[i])
  }

  lemma AssignPieces(toks: seq<Tok>, pos: nat, a: Assignment)
    requires Stands(toks, pos, ActionToks(Assign(a)))
    ensures var n := |PathToks(a.path)|;
            && Stands(toks, pos, PathToks(a.path)) && toks[pos + n] == Op(61)
                && Stands(toks, pos + n + 1, SumToks(a.value))
            && pos + |ActionToks(Assign(a))| == pos + n + 1 + |SumToks(a.value)|
  {
    hide At, PathToks, SumToks;
    StandsSplits(toks, pos, PathToks(a.path), Op(61), SumToks(a.value));
  }

  lemma PairPieces(toks: seq<Tok>, pos: nat, pv: PathValue)
    requires Stands(toks, pos, PathToks(pv.path) + [ValueRef(pv.text)])
    ensures Stands(toks, pos, PathToks(pv.path)) && toks[pos + |PathToks(pv.path)|] == ValueRef(pv.text)
  {
    hide At, PathToks;
    assert PathToks(pv.path) + [ValueRef(pv.text)] == PathToks(pv.path) + [ValueRef(pv.text)] + [];
    StandsSplits(toks, pos, PathToks(pv.path), ValueRef(pv.text), []);
  }

  /** The first action, and the comma that follows it exactly when there are more. */
  lemma ActionPieces(toks: seq<Tok>, pos: nat, xs: seq<Action>)
    requires xs != [] && Stands(toks, pos, ActionsToks(xs)) && EndsClause(toks[pos + |ActionsToks(xs)|])
    ensures var n := |ActionToks(xs[0])|;
            && Stands(toks, pos, ActionToks(xs[0])) && EndsAction(toks[pos + n])
            && (|xs| == 1 ==> |ActionsToks(xs)| == n && EndsClause(toks[pos + n]))
            && (|xs| > 1 ==> toks[pos + n] == Comma && Stands(toks, pos + n + 1, ActionsToks(xs[1..]))
                             && pos + |ActionsToks(xs)| == pos + n + 1 + |ActionsToks(xs[1..])|)
  {
    hide At, ActionToks;
    if |xs| > 1 {
      StandsSplits(toks, pos, ActionToks(xs[0]), Comma, ActionsToks(xs[1..]));
    }
  }

  lemma ActionStep(xs: seq<Action>, item: Item, env: Env)
    requires GoodClause(xs)
    ensures GoodAction(xs[0])
    ensures var next := EvalAction(xs[0], item, env);
            && (next.None? ==> EvalActions(xs, item, env).None?)
            && (next.Some? && |xs| == 1 ==> EvalActions(xs, item, env) == next)
            && (next.Some? && |xs| > 1 ==> GoodClause(xs[1..]) && SectionOf(xs[1]) == SectionOf(xs[0])
                                           && EvalActions(xs, item, env) == EvalActions(xs[1..], next.value, env))
  {
    hide EvalAction, GoodAction;
  }

  lemma UpdatePieces(toks: seq<Tok>, pos: nat, clauses: seq<seq<Action>>)
    requires GoodClauses(clauses) && At(toks, pos, UpdateToks(clauses)) && pos < |toks|
    ensures clauses == [] ==> toks[pos] == End
    ensures clauses != [] ==>
              && GoodClause(clauses[0]) && toks[pos] == Keyword(SectionOf(clauses[0][0])) && GoodClauses(clauses[1..])
              && Stands(toks, pos + 1, ActionsToks(clauses[0]))
              && EndsClause(toks[pos + 1 + |ActionsToks(clauses[0])|])
              && At(toks, pos + 1 + |ActionsToks(clauses[0])|, UpdateToks(clauses[1..]))
  {
    hide At, ActionsToks, GoodClause;
    if clauses == [] {
      AtOne(toks, pos, End);
    } else {
      assert GoodClause(clauses[0]);
      var k: Tok := Keyword(KindOf(clauses[0]));
      var a, b := ActionsToks(clauses[0]), UpdateToks(clauses[1..]);
      KindIs(clauses[0]);
      assert UpdateToks(clauses) == [k] + (a + b);
      AtSplits(toks, pos, [k], a + b);
      AtOne(toks, pos, k);
      AtSplits(toks, pos + 1, a, b);
      UpdateOpens(toks, pos + 1 + |a|, clauses[1..]);
    }
  }

  function KindOf(xs: seq<Action>): (s: Section) {
    if xs == [] then SetSection else SectionOf(xs[0])
  }

  lemma KindIs(xs: seq<Action>)
    requires GoodClause(xs)
    ensures xs != [] && KindOf(xs) == SectionOf(xs[0])
  {
  }

  lemma UpdateOpens(toks: seq<Tok>, pos: nat, clauses: seq<seq<Action>>)
    requires GoodClauses(clauses) && At(toks, pos, UpdateToks(clauses))
    ensures pos < |toks| && EndsClause(toks[pos])
  {
    hide ActionsToks, GoodClause;
    var ts := UpdateToks(clauses);
    assert ts != [] && EndsClause(ts[0]);
    assert toks[pos] == toks[pos..pos + |ts|][0];
  }

  lemma ClauseStep(clauses: seq<seq<Action>>, item: Item, env: Env)
    requires GoodClauses(clauses) && clauses != []
    ensures GoodClause(clauses[0]) && GoodClauses(clauses[1..])
    ensures var next := EvalActions(clauses[0], item, env);
            EvalUpdate(clauses, item, env) == if next.None? then None else EvalUpdate(clauses[1..], next.value, env)
  {
    hide EvalActions;
    assert GoodClause(clauses[0]);
  }

  lemma NoClauses(clauses: seq<seq<Action>>, item: Item, env: Env)
    requires GoodClauses(clauses)
    ensures clauses == [] ==> EvalUpdate(clauses, item, env) == Some(item)
  {
  }

  /** The tokens are those of the tree. */
  ghost predicate Writes(toks: seq<Tok>, clauses: seq<seq<Action>>) {
    clauses != [] && GoodClauses(clauses) && toks == UpdateToks(clauses)
  }

  // ---- apply_update_expression ---------------------------------------------------------------------

  /**
   All of the expression or nothing, and only attributes it names.  A text that succeeds is that of a syntax tree,
   and the result is what the tree means; the text of a tree fails exactly when the tree has no meaning.
   */
  method ApplyUpdate(expression: ByteString, item: Item, env: Env, ghost clauses: seq<seq<Action>>)
    returns (ok: bool, result: Item, toks: seq<Tok>, bad: bool, ghost edits: seq<Edit>, ghost tree: seq<seq<Action>>)
    requires GoodClauses(clauses)
    ensures (toks, bad) == TokensFrom(expression, 0)
    ensures !ok ==> result == item
    ensures ok ==> !bad && Writes(toks, tree) && EvalUpdate(tree, item, env) == Some(result)
    ensures EditAll(item, edits) == Some(result) && Within(edits, Mentioned(toks, env.names))
    ensures forall name | name !in Mentioned(toks, env.names) ::
              (name in result <==> name in item) && (name in item ==> result[name] == item[name])
    ensures !bad && clauses != [] && toks == UpdateToks(clauses) ==>
              (ok <==> EvalUpdate(clauses, item, env).Some?) && (ok ==> result == EvalUpdate(clauses, item, env).value)
  {
    hide EvalUpdate, UpdateToks, Mentioned, EditAll, Within, GoodClause, TokensFrom;
    NoEdits(item, {});
    toks, bad := Tokenize(expression);
    if bad {
      NoEdits(item, Mentioned(toks, env.names));
      return false, item, toks, true, [], [];
    }
    ghost var want: Option<seq<seq<Action>>> := None;
    if clauses != [] && toks == UpdateToks(clauses) {
      want := Some(clauses);
    } else if other :| Writes(toks, other) {
      want := Some(other);
    }
    WholeAt(toks);
    var applier := new Applier(toks, item, env);
    ok, tree := applier.RunAll(want);
    if !ok {
      NoEdits(item, Mentioned(toks, env.names));
      return false, item, toks, false, [], [];
    }
    WholeTree(toks, tree);
    assert Writes(toks, tree);
    tree := want.value;
    forall name | name !in Mentioned(toks, env.names)
      ensures (name in applier.item <==> name in item) && (name in item ==> applier.item[name] == item[name])
    {
      UntouchedAttributes(item, applier.edits, Mentioned(toks, env.names), name);
    }
    return true, applier.item, toks, false, applier.edits, tree;
  }

  lemma NoEdits(item: Item, roots: set<ByteString>)
    ensures EditAll(item, []) == Some(item) && Within([], roots)
  {
  }

  lemma WholeAt(toks: seq<Tok>)
    ensures At(toks, 0, toks)
  {
  }
}
