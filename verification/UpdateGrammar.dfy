/**
 The grammar of update expressions and what an expression means, apart from how it is parsed: syntax trees,
 the tokens they are written with, and the item they turn an item into.
 */
module UpdateGrammar {
  import opened Bytes
  import opened Values
  import opened DocumentPaths

  datatype Section = SetSection | RemoveSection | AddSection | DeleteSection

  datatype Tok =
    | Ident(text: ByteString)
    | NameRef(text: ByteString)
    | ValueRef(text: ByteString)
    | Op(c: Byte)
    | LParen
    | RParen
    | Comma
    | Dot
    | IndexTok(index: nat)
    | Keyword(section: Section)
    | End

  type Names = map<ByteString, ByteString>

  /** Decimal arithmetic on number texts; None where a text is not a number. */
  datatype Arithmetic = Arithmetic(plus: (ByteString, ByteString) -> Option<ByteString>,
                                   minus: (ByteString, ByteString) -> Option<ByteString>,
                                   addTo: (Option<ByteString>, ByteString) -> Option<ByteString>)

  /** What an expression is evaluated against besides the item. */
  datatype Env = Env(names: Names, values: map<ByteString, Value>, arithmetic: Arithmetic)

  // ---- Syntax --------------------------------------------------------------------------------------

  datatype Step = ByName(tok: Tok) | ByIndex(index: nat)

  datatype RawPath = RawPath(root: Tok, steps: seq<Step>)

  datatype Operand =
    | Val(text: ByteString)
    | Ref(path: RawPath)
    | IfNot(word: Tok, path: RawPath, fallback: Sum)
    | Append(word: Tok, a: Sum, b: Sum)

  datatype Sum = Sum(first: Operand, rest: seq<Term>)

  datatype Term = Term(plus: bool, o: Operand)

  datatype Assignment = Assignment(path: RawPath, value: Sum)

  datatype PathValue = PathValue(path: RawPath, text: ByteString)

  function UpperByte(c: Byte): (r: Byte) {
    if 97 <= c <= 122 then c - 32 else c
  }

  function Upper(s: ByteString): (r: ByteString)
    ensures |r| == |s|
  {
    seq(|s|, i requires 0 <= i < |s| => UpperByte(s[i]))
  }

  /** IF_NOT_EXISTS and LIST_APPEND. */
  const IF_NOT_EXISTS: ByteString := [73, 70, 95, 78, 79, 84, 95, 69, 88, 73, 83, 84, 83]
  const LIST_APPEND: ByteString := [76, 73, 83, 84, 95, 65, 80, 80, 69, 78, 68]

  predicate IsName(t: Tok) {
    t.Ident? || t.NameRef?
  }

  predicate IsWord(t: Tok, word: ByteString) {
    t.Ident? && Upper(t.text) == word
  }

  predicate GoodPath(p: RawPath) {
    IsName(p.root) && forall i | 0 <= i < |p.steps| && p.steps[i].ByName? :: IsName(p.steps[i].tok)
  }

  predicate GoodOperand(o: Operand)
    decreases o
  {
    match o
    case Val(_) => true
    case Ref(p) => GoodPath(p)
    case IfNot(word, p, f) => IsWord(word, IF_NOT_EXISTS) && GoodPath(p) && GoodSum(f)
    case Append(word, a, b) => IsWord(word, LIST_APPEND) && GoodSum(a) && GoodSum(b)
  }

  predicate GoodSum(s: Sum)
    decreases s
  {
    GoodOperand(s.first) && forall i | 0 <= i < |s.rest| :: GoodOperand(s.rest[i].o)
  }

  // ---- Tokens of a syntax tree ---------------------------------------------------------------------

  function StepToks(s: Step): (r: seq<Tok>) {
    match s case ByName(t) => [Dot, t] case ByIndex(i) => [IndexTok(i)]
  }

  function StepsToks(steps: seq<Step>): (r: seq<Tok>) {
    if steps == [] then [] else StepsToks(steps[..|steps| - 1]) + StepToks(steps[|steps| - 1])
  }

  function PathToks(p: RawPath): (r: seq<Tok>) {
    [p.root] + StepsToks(p.steps)
  }

  function OperandToks(o: Operand): (r: seq<Tok>)
    ensures |r| > 0
    decreases o
  {
    match o
    case Val(text) => [ValueRef(text)]
    case Ref(p) => PathToks(p)
    case IfNot(word, p, f) => [word, LParen] + PathToks(p) + [Comma] + SumToks(f) + [RParen]
    case Append(word, a, b) => [word, LParen] + SumToks(a) + [Comma] + SumToks(b) + [RParen]
  }

  function TermToks(t: Term): (r: seq<Tok>)
    decreases t
  {
    [Op(if t.plus then 43 else 45)] + OperandToks(t.o)
  }

  function TermsToks(ts: seq<Term>): (r: seq<Tok>)
    decreases ts
  {
    if ts == [] then [] else TermToks(ts[0]) + TermsToks(ts[1..])
  }

  function SumToks(s: Sum): (r: seq<Tok>)
    ensures |r| > 0
    decreases s
  {
    OperandToks(s.first) + TermsToks(s.rest)
  }

  // ---- Meaning -------------------------------------------------------------------------------------

  predicate StartsWithHash(s: ByteString) {
    s != [] && s[0] == 35
  }

  /** resolve_name. */
  function Resolve(names: Names, text: ByteString): (r: Option<ByteString>) {
    if !StartsWithHash(text) then Some(text) else if text in names then Some(names[text]) else None
  }

  function StepSeg(names: Names, s: Step): (r: Option<Seg>)
    requires s.ByName? ==> IsName(s.tok)
  {
    match s
    case ByIndex(i) => Some(Index(i))
    case ByName(t) => match Resolve(names, t.text) case None => None case Some(n) => Some(Name(n))
  }

  function StepsPath(names: Names, steps: seq<Step>): (r: Option<Path>)
    requires forall i | 0 <= i < |steps| && steps[i].ByName? :: IsName(steps[i].tok)
  {
    if steps == [] then Some([])
    else
      var init, last := StepsPath(names, steps[..|steps| - 1]), StepSeg(names, steps[|steps| - 1]);
      if init.None? || last.None? then None else Some(init.value + [last.value])
  }

  function PathOf(names: Names, p: RawPath): (r: Option<Path>)
    requires GoodPath(p)
  {
    var root, rest := Resolve(names, p.root.text), StepsPath(names, p.steps);
    if root.None? || rest.None? then None else Some([Name(root.value)] + rest.value)
  }

  /** An operand fails, names nothing, or has a value. */
  datatype Outcome = Error | Absent | Got(value: Value)

  function OutcomeOf(r: Option<Value>): (o: Outcome) {
    match r case None => Absent case Some(v) => Got(v)
  }

  function EvalOperand(o: Operand, item: Item, env: Env): (r: Outcome)
    requires GoodOperand(o)
    decreases o
  {
    match o
    case Val(text) => if text in env.values then Got(env.values[text]) else Error
    case Ref(p) => (match PathOf(env.names, p) case None => Error case Some(q) => OutcomeOf(ReadPath(item, q)))
    case IfNot(_, p, f) =>
      (match PathOf(env.names, p)
       case None => Error
       case Some(q) =>
         var fallback := EvalSum(f, item, env);
         if fallback.Error? then Error
         else if ReadPath(item, q).Some? then OutcomeOf(ReadPath(item, q)) else fallback)
    case Append(_, a, b) =>
      var x, y := EvalSum(a, item, env), EvalSum(b, item, env);
      if x.Got? && y.Got? && x.value.L? && y.value.L? then Got(L(x.value.elems + y.value.elems)) else Error
  }

  function Combine(plus: bool, x: Outcome, y: Outcome, arithmetic: Arithmetic): (r: Outcome) {
    if x.Got? && y.Got? && x.value.N? && y.value.N? then
      var n := if plus then arithmetic.plus(x.value.n, y.value.n) else arithmetic.minus(x.value.n, y.value.n);
      if n.None? then Error else Got(N(n.value))
    else Error
  }

  /** Left to right. */
  function EvalTerms(acc: Outcome, ts: seq<Term>, item: Item, env: Env): (r: Outcome)
    requires forall i | 0 <= i < |ts| :: GoodOperand(ts[i].o)
    decreases ts
  {
    if ts == [] then acc
    else EvalTerms(Combine(ts[0].plus, acc, EvalTerm(ts[0], item, env), env.arithmetic), ts[1..], item, env)
  }

  function EvalTerm(t: Term, item: Item, env: Env): (r: Outcome)
    requires GoodOperand(t.o)
    decreases t
  {
    EvalOperand(t.o, item, env)
  }

  function EvalSum(s: Sum, item: Item, env: Env): (r: Outcome)
    requires GoodSum(s)
    decreases s
  {
    EvalTerms(EvalOperand(s.first, item, env), s.rest, item, env)
  }

  lemma {:induction false} ErrorsStay(ts: seq<Term>, item: Item, env: Env)
    requires forall i | 0 <= i < |ts| :: GoodOperand(ts[i].o)
    ensures EvalTerms(Error, ts, item, env) == Error
    decreases |ts|
  {
    if ts != [] {
      ErrorsStay(ts[1..], item, env);
    }
  }

  // ---- Clauses -------------------------------------------------------------------------------------

  /** Set union and difference on the element lists of SS and NS values. */
  function Union(a: seq<ByteString>, b: seq<ByteString>): (r: seq<ByteString>)
    decreases |b|
  {
    if b == [] then a else Union(if b[0] in a then a else a + [b[0]], b[1..])
  }

  function Difference(a: seq<ByteString>, b: seq<ByteString>): (r: seq<ByteString>) {
    if a == [] then [] else (if a[0] in b then [] else [a[0]]) + Difference(a[1..], b)
  }

  /** ADD's new value at a path: a sum, or a union of sets of one type. */
  function Added(existing: Option<Value>, operand: Value, arithmetic: Arithmetic): (r: Option<Value>) {
    match operand
    case N(n) =>
      var sum := arithmetic.addTo(if existing.Some? && existing.value.N? then Some(existing.value.n) else None, n);
      if sum.None? then None else Some(N(sum.value))
    case SS(ss) => if existing.None? then Some(operand)
        else if existing.value.SS? then Some(SS(Union(existing.value.strings, ss))) else None
    case NS(ns) => if existing.None? then Some(operand)
        else if existing.value.NS? then Some(NS(Union(existing.value.numbers, ns))) else None
    case _ => None
  }

  /** DELETE's remaining elements, when the attribute is a set of the operand's type. */
  function Remaining(existing: Option<Value>, operand: Value): (r: Option<Value>) {
    if existing.Some? && existing.value.SS?
        && operand.SS? then Some(SS(Difference(existing.value.strings, operand.strings)))
    else if existing.Some? && existing.value.NS?
        && operand.NS? then Some(NS(Difference(existing.value.numbers, operand.numbers)))
    else None
  }

  function EvalAssignment(a: Assignment, item: Item, env: Env): (r: Option<Item>)
    requires GoodPath(a.path) && GoodSum(a.value)
  {
    var p, v := PathOf(env.names, a.path), EvalSum(a.value, item, env);
    if p.None? || !v.Got? then None else WritePath(item, p.value, v.value)
  }

  function EvalRemove(p: RawPath, item: Item, env: Env): (r: Option<Item>)
    requires GoodPath(p)
  {
    match PathOf(env.names, p) case None => None case Some(q) => Some(ErasePath(item, q))
  }

  function EvalAdd(pv: PathValue, item: Item, env: Env): (r: Option<Item>)
    requires GoodPath(pv.path)
  {
    var p := PathOf(env.names, pv.path);
    if p.None? || pv.text !in env.values then None
    else
      var v := Added(ReadPath(item, p.value), env.values[pv.text], env.arithmetic);
      if v.None? then None else WritePath(item, p.value, v.value)
  }

  /** An emptied set goes; on anything but a set of the operand's type DELETE does nothing. */
  function EvalDelete(pv: PathValue, item: Item, env: Env): (r: Option<Item>)
    requires GoodPath(pv.path)
  {
    var p := PathOf(env.names, pv.path);
    if p.None? || pv.text !in env.values then None
    else
      var left := Remaining(ReadPath(item, p.value), env.values[pv.text]);
      if left.None? then Some(item)
      else if left.value == SS([]) || left.value == NS([]) then Some(ErasePath(item, p.value))
      else WritePath(item, p.value, left.value)
  }

  /** One action of a clause: its tokens and its effect. */
  datatype Action = Assign(a: Assignment) | Drop(p: RawPath) | AddTo(pv: PathValue) | DeleteFrom(pv: PathValue)

  predicate GoodAction(x: Action) {
    match x
    case Assign(a) => GoodPath(a.path) && GoodSum(a.value)
    case Drop(p) => GoodPath(p)
    case AddTo(pv) => GoodPath(pv.path)
    case DeleteFrom(pv) => GoodPath(pv.path)
  }

  function ActionToks(x: Action): (r: seq<Tok>) {
    match x
    case Assign(a) => PathToks(a.path) + [Op(61)] + SumToks(a.value)
    case Drop(p) => PathToks(p)
    case AddTo(pv) => PathToks(pv.path) + [ValueRef(pv.text)]
    case DeleteFrom(pv) => PathToks(pv.path) + [ValueRef(pv.text)]
  }

  function EvalAction(x: Action, item: Item, env: Env): (r: Option<Item>)
    requires GoodAction(x)
  {
    match x
    case Assign(a) => EvalAssignment(a, item, env)
    case Drop(p) => EvalRemove(p, item, env)
    case AddTo(pv) => EvalAdd(pv, item, env)
    case DeleteFrom(pv) => EvalDelete(pv, item, env)
  }

  function SectionOf(x: Action): (s: Section) {
    match x
    case Assign(_) => SetSection
    case Drop(_) => RemoveSection
    case AddTo(_) => AddSection
    case DeleteFrom(_) => DeleteSection
  }

  /** Actions of one section, separated by commas. */
  function ActionsToks(xs: seq<Action>): (r: seq<Tok>) {
    if xs == [] then [] else if |xs| == 1 then ActionToks(xs[0]) else ActionToks(xs[0]) + [Comma] + ActionsToks(xs[1..])
  }

  predicate GoodClause(xs: seq<Action>) {
    xs != [] && forall i | 0 <= i < |xs| :: GoodAction(xs[i]) && SectionOf(xs[i]) == SectionOf(xs[0])
  }

  function EvalActions(xs: seq<Action>, item: Item, env: Env): (r: Option<Item>)
    requires forall i | 0 <= i < |xs| :: GoodAction(xs[i])
    decreases |xs|
  {
    if xs == [] then Some(item)
    else match EvalAction(xs[0], item, env)
      case None => None
      case Some(next) => EvalActions(xs[1..], next, env)
  }

  /** A whole expression: clauses one after another, each introduced by its keyword. */
  function UpdateToks(clauses: seq<seq<Action>>): (r: seq<Tok>)
    requires forall i | 0 <= i < |clauses| :: GoodClause(clauses[i])
  {
    if clauses == [] then [End]
    else
      assert GoodClause(clauses[0]);
      [Keyword(SectionOf(clauses[0][0]))] + ActionsToks(clauses[0]) + UpdateToks(clauses[1..])
  }

  function EvalUpdate(clauses: seq<seq<Action>>, item: Item, env: Env): (r: Option<Item>)
    requires forall i | 0 <= i < |clauses| :: GoodClause(clauses[i])
    decreases |clauses|
  {
    if clauses == [] then Some(item)
    else
      assert GoodClause(clauses[0]);
      match EvalActions(clauses[0], item, env)
      case None => None
      case Some(next) => EvalUpdate(clauses[1..], next, env)
  }

  // ---- Tokens at a position ------------------------------------------------------------------------

  predicate At(toks: seq<Tok>, pos: nat, ts: seq<Tok>) {
    pos + |ts| <= |toks| && toks[pos..pos + |ts|] == ts
  }

  lemma AtSplits(toks: seq<Tok>, pos: nat, a: seq<Tok>, b: seq<Tok>)
    ensures At(toks, pos, a + b) <==> At(toks, pos, a) && At(toks, pos + |a|, b)
  {
    if pos + |a| + |b| <= |toks| {
      var whole := toks[pos..pos + |a| + |b|];
      assert whole[..|a|] == toks[pos..pos + |a|] && whole[|a|..] == toks[pos + |a|..pos + |a| + |b|];
      assert (a + b)[..|a|] == a && (a + b)[|a|..] == b;
      assert whole == whole[..|a|] + whole[|a|..];
    }
  }

  lemma AtOne(toks: seq<Tok>, pos: nat, t: Tok)
    ensures At(toks, pos, [t]) <==> pos < |toks| && toks[pos] == t
  {
    if pos < |toks| {
      assert toks[pos..pos + 1] == [toks[pos]];
    }
  }

  /** What may follow a path or an operand. */
  predicate Closes(t: Tok) {
    !t.Dot? && !t.IndexTok? && !t.LParen?
  }

  /** What may follow a sum. */
  predicate ClosesSum(t: Tok) {
    Closes(t) && !(t.Op? && (t.c == 43 || t.c == 45))
  }

  lemma AtPrefix(toks: seq<Tok>, pos: nat, ts: seq<Tok>, k: nat)
    requires At(toks, pos, ts) && k <= |ts|
    ensures At(toks, pos, ts[..k]) && At(toks, pos + k, ts[k..])
  {
    assert ts == ts[..k] + ts[k..];
    AtSplits(toks, pos, ts[..k], ts[k..]);
  }

  lemma {:induction false} StepsPrefix(steps: seq<Step>, n: nat)
    requires n <= |steps|
    ensures |StepsToks(steps[..n])| <= |StepsToks(steps)|
    ensures StepsToks(steps)[..|StepsToks(steps[..n])|] == StepsToks(steps[..n])
    decreases |steps|
  {
    if n == |steps| {
      assert steps[..n] == steps;
    } else {
      var init := steps[..|steps| - 1];
      StepsPrefix(init, n);
      assert init[..n] == steps[..n];
    }
  }

  /** The tokens of the n-th step of a path. */
  lemma StepAt(toks: seq<Tok>, pos: nat, p: RawPath, n: nat)
    requires At(toks, pos, PathToks(p)) && n < |p.steps|
    ensures At(toks, pos + 1 + |StepsToks(p.steps[..n])|, StepToks(p.steps[n]))
    ensures |StepsToks(p.steps[..n + 1])| == |StepsToks(p.steps[..n])| + |StepToks(p.steps[n])|
  {
    hide At;
    var a, b := StepsToks(p.steps[..n]), StepToks(p.steps[n]);
    assert p.steps[..n + 1][..n] == p.steps[..n];
    StepsPrefix(p.steps, n + 1);
    AtSplits(toks, pos, [p.root], StepsToks(p.steps));
    AtPrefix(toks, pos + 1, StepsToks(p.steps), |a + b|);
    AtSplits(toks, pos + 1, a, b);
  }

  lemma {:induction false} StepsFail(names: Names, steps: seq<Step>, n: nat)
    requires forall i | 0 <= i < |steps| && steps[i].ByName? :: IsName(steps[i].tok)
    requires n < |steps| && StepSeg(names, steps[n]).None?
    ensures StepsPath(names, steps).None?
    decreases |steps|
  {
    if n < |steps| - 1 {
      StepsFail(names, steps[..|steps| - 1], n);
    }
  }

  lemma StepsPathMore(names: Names, steps: seq<Step>, n: nat)
    requires forall i | 0 <= i < |steps| && steps[i].ByName? :: IsName(steps[i].tok)
    requires n < |steps|
    ensures StepsPath(names, steps[..n + 1])
         == var init, last := StepsPath(names, steps[..n]), StepSeg(names, steps[n]);
            if init.None? || last.None? then None else Some(init.value + [last.value])
  {
    assert steps[..n + 1][..n] == steps[..n];
  }

  // ---- The pieces of an operand --------------------------------------------------------------------

  /** The tokens of ts stand at pos and something that satisfies `closes` follows. */
  predicate Stands(toks: seq<Tok>, pos: nat, ts: seq<Tok>) {
    At(toks, pos, ts) && pos + |ts| < |toks|
  }

  lemma StandsSplits(toks: seq<Tok>, pos: nat, a: seq<Tok>, t: Tok, b: seq<Tok>)
    requires Stands(toks, pos, a + [t] + b)
    ensures Stands(toks, pos, a) && toks[pos + |a|] == t && Stands(toks, pos + |a| + 1, b)
  {
    AtSplits(toks, pos, a + [t], b);
    AtSplits(toks, pos, a, [t]);
    AtOne(toks, pos + |a|, t);
  }

  lemma RefOpens(toks: seq<Tok>, pos: nat, p: RawPath)
    requires GoodPath(p) && Stands(toks, pos, PathToks(p)) && Closes(toks[pos + |PathToks(p)|])
    ensures toks[pos] == p.root && pos + 1 < |toks| && !toks[pos + 1].LParen?
  {
    hide At, StepsToks, StepToks;
    AtSplits(toks, pos, [p.root], StepsToks(p.steps));
    AtOne(toks, pos, p.root);
    StepsOpen(p.steps);
    if p.steps != [] {
      AtFirst(toks, pos + 1, StepsToks(p.steps));
    }
  }

  lemma AtFirst(toks: seq<Tok>, pos: nat, ts: seq<Tok>)
    requires At(toks, pos, ts) && ts != []
    ensures pos < |toks| && toks[pos] == ts[0]
  {
    assert toks[pos] == toks[pos..pos + |ts|][0];
  }

  lemma StepsOpen(steps: seq<Step>)
    ensures if steps == [] then StepsToks(steps) == [] else StepsToks(steps) != [] && !StepsToks(steps)[0].LParen?
  {
    if steps != [] {
      StepsPrefix(steps, 1);
      assert steps[..1] == [steps[0]] && [steps[0]][..0] == [];
      assert StepsToks([steps[0]]) == StepToks(steps[0]);
    }
  }

  lemma IfNotPieces(toks: seq<Tok>, pos: nat, o: Operand)
    requires o.IfNot? && GoodOperand(o) && Stands(toks, pos, OperandToks(o))
    ensures var a := pos + 2;
            var b := a + |PathToks(o.path)| + 1;
            && toks[pos] == o.word && toks[pos + 1] == LParen
            && Stands(toks, a, PathToks(o.path)) && toks[b - 1] == Comma
            && Stands(toks, b, SumToks(o.fallback)) && toks[b + |SumToks(o.fallback)|] == RParen
            && pos + |OperandToks(o)| == b + |SumToks(o.fallback)| + 1
  {
    hide At, SumToks, PathToks;
    var p, f := PathToks(o.path), SumToks(o.fallback);
    assert OperandToks(o) == [o.word] + [LParen] + (p + [Comma] + (f + [RParen] + []));
    StandsSplits(toks, pos, [o.word], LParen, p + [Comma] + (f + [RParen] + []));
    AtOne(toks, pos, o.word);
    StandsSplits(toks, pos + 2, p, Comma, f + [RParen] + []);
    StandsSplits(toks, pos + 2 + |p| + 1, f, RParen, []);
  }

  lemma AppendMeans(o: Operand, item: Item, env: Env)
    requires o.Append? && GoodOperand(o)
    ensures GoodSum(o.a) && GoodSum(o.b)
    ensures EvalSum(o.a, item, env).Error? || EvalSum(o.b, item, env).Error? ==> EvalOperand(o, item, env).Error?
    ensures var x, y := EvalSum(o.a, item, env), EvalSum(o.b, item, env);
            EvalOperand(o, item, env) ==
            if x.Got? && y.Got? && x.value.L? && y.value.L? then Got(L(x.value.elems + y.value.elems)) else Error
  {
    hide EvalSum, GoodSum;
  }

  lemma AppendPieces(toks: seq<Tok>, pos: nat, o: Operand)
    requires o.Append? && GoodOperand(o) && Stands(toks, pos, OperandToks(o))
    ensures var a := pos + 2;
            var b := a + |SumToks(o.a)| + 1;
            && toks[pos] == o.word && toks[pos + 1] == LParen
            && Stands(toks, a, SumToks(o.a)) && toks[b - 1] == Comma
            && Stands(toks, b, SumToks(o.b)) && toks[b + |SumToks(o.b)|] == RParen
            && pos + |OperandToks(o)| == b + |SumToks(o.b)| + 1
  {
    hide At, SumToks, PathToks;
    var p, f := SumToks(o.a), SumToks(o.b);
    assert OperandToks(o) == [o.word] + [LParen] + (p + [Comma] + (f + [RParen] + []));
    StandsSplits(toks, pos, [o.word], LParen, p + [Comma] + (f + [RParen] + []));
    AtOne(toks, pos, o.word);
    StandsSplits(toks, pos + 2, p, Comma, f + [RParen] + []);
    StandsSplits(toks, pos + 2 + |p| + 1, f, RParen, []);
  }

  /** A sum's first operand, and what follows it. */
  lemma SumPieces(toks: seq<Tok>, pos: nat, s: Sum)
    requires Stands(toks, pos, SumToks(s)) && ClosesSum(toks[pos + |SumToks(s)|])
    ensures var n := |OperandToks(s.first)|;
            && Stands(toks, pos, OperandToks(s.first)) && Stands(toks, pos + n, TermsToks(s.rest))
            && Closes(toks[pos + n]) && pos + |SumToks(s)| == pos + n + |TermsToks(s.rest)|
  {
    hide At, OperandToks, TermToks;
    var n := |OperandToks(s.first)|;
    AtSplits(toks, pos, OperandToks(s.first), TermsToks(s.rest));
    TermsOpen(toks, pos + n, s.rest);
  }

  lemma TermsOpen(toks: seq<Tok>, pos: nat, ts: seq<Term>)
    requires Stands(toks, pos, TermsToks(ts))
    ensures ts != [] ==> toks[pos] == Op(if ts[0].plus then 43 else 45)
    ensures ts == [] ==> |TermsToks(ts)| == 0
  {
    hide OperandToks;
    if ts != [] {
      var op: Tok := Op(if ts[0].plus then 43 else 45);
      assert TermsToks(ts) == [] + [op] + (OperandToks(ts[0].o) + TermsToks(ts[1..]));
      StandsSplits(toks, pos, [], op, OperandToks(ts[0].o) + TermsToks(ts[1..]));
    }
  }

  /** One more term: its operator, its operand, and the terms after it. */
  lemma TermPieces(toks: seq<Tok>, pos: nat, ts: seq<Term>)
    requires ts != [] && Stands(toks, pos, TermsToks(ts)) && ClosesSum(toks[pos + |TermsToks(ts)|])
    ensures var n := |OperandToks(ts[0].o)|;
            && toks[pos] == Op(if ts[0].plus then 43 else 45)
            && Stands(toks, pos + 1, OperandToks(ts[0].o)) && Closes(toks[pos + 1 + n])
            && Stands(toks, pos + 1 + n, TermsToks(ts[1..]))
            && pos + |TermsToks(ts)| == pos + 1 + n + |TermsToks(ts[1..])|
  {
    hide At, OperandToks;
    var n := |OperandToks(ts[0].o)|;
    var op: Tok := Op(if ts[0].plus then 43 else 45);
    assert TermsToks(ts) == [] + [op] + (OperandToks(ts[0].o) + TermsToks(ts[1..]));
    StandsSplits(toks, pos, [], op, OperandToks(ts[0].o) + TermsToks(ts[1..]));
    AtSplits(toks, pos + 1, OperandToks(ts[0].o), TermsToks(ts[1..]));
    TermsOpen(toks, pos + 1 + n, ts[1..]);
  }
}
