/** Document paths of update expressions (src/expressions/update_expression.cpp): read_path, write_path, erase_path. */
module DocumentPaths {
  import opened Bytes
  import opened Values

  datatype Seg = Name(name: ByteString) | Index(index: nat)

  type Path = seq<Seg>

  // ---- Inside one attribute ------------------------------------------------------------------------

  predicate HasChild(v: Value, s: Seg) {
    match s
    case Name(n) => v.M? && n in v.fields
    case Index(i) => v.L? && i < |v.elems|
  }

  function Child(v: Value, s: Seg): (c: Value)
    requires HasChild(v, s)
  {
    match s case Name(n) => v.fields[n] case Index(i) => v.elems[i]
  }

  /** A leaf can be written into an existing map, or into a list at most one past its end. */
  predicate CanPut(v: Value, s: Seg) {
    match s
    case Name(n) => v.M?
    case Index(i) => v.L? && i <= |v.elems|
  }

  function PutChild(v: Value, s: Seg, w: Value): (r: Value)
    requires CanPut(v, s)
  {
    match s
    case Name(n) => M(v.fields[n := w])
    case Index(i) => L(if i < |v.elems| then v.elems[i := w] else v.elems + [w])
  }

  function ReadIn(v: Value, p: Path): (r: Option<Value>)
    decreases |p|
  {
    if p == [] then Some(v)
    else if HasChild(v, p[0]) then ReadIn(Child(v, p[0]), p[1..])
    else None
  }

  /** The value with w at p; parents must exist. */
  function WriteIn(v: Value, p: Path, w: Value): (r: Option<Value>)
    decreases |p|
  {
    if p == [] then Some(w)
    else if |p| == 1 then (if CanPut(v, p[0]) then Some(PutChild(v, p[0], w)) else None)
    else if !HasChild(v, p[0]) then None
    else match WriteIn(Child(v, p[0]), p[1..], w)
      case None => None
      case Some(c) => Some(PutChild(v, p[0], c))
  }

  function DropChild(v: Value, s: Seg): (r: Value) {
    match s
    case Name(n) => if v.M? then M(v.fields - {n}) else v
    case Index(i) => if v.L? && i < |v.elems| then L(v.elems[..i] + v.elems[i + 1..]) else v
  }

  /** The value without what is at p; a path that leads nowhere changes nothing. */
  function EraseIn(v: Value, p: Path): (r: Value)
    decreases |p|
  {
    if p == [] then v
    else if |p| == 1 then DropChild(v, p[0])
    else if !HasChild(v, p[0]) then v
    else PutChild(v, p[0], EraseIn(Child(v, p[0]), p[1..]))
  }

  // ---- From the item -------------------------------------------------------------------------------

  function ReadPath(item: Item, p: Path): (r: Option<Value>) {
    if p == [] || p[0].Index? || p[0].name !in item then None else ReadIn(item[p[0].name], p[1..])
  }

  function WritePath(item: Item, p: Path, w: Value): (r: Option<Item>) {
    if p == [] || p[0].Index? then None
    else if |p| == 1 then Some(item[p[0].name := w])
    else if p[0].name !in item then None
    else match WriteIn(item[p[0].name], p[1..], w)
      case None => None
      case Some(v) => Some(item[p[0].name := v])
  }

  function ErasePath(item: Item, p: Path): (r: Item) {
    if p == [] || p[0].Index? then item
    else if |p| == 1 then item - {p[0].name}
    else if p[0].name !in item then item
    else item[p[0].name := EraseIn(item[p[0].name], p[1..])]
  }

  // ---- Writing and reading -------------------------------------------------------------------------

  lemma ReadSplits(v: Value, p: Path, q: Path)
    ensures ReadIn(v, p + q) == match ReadIn(v, p) case None => None case Some(u) => ReadIn(u, q)
    decreases |p|
  {
    if p == [] {
      assert p + q == q;
    } else {
      assert (p + q)[0] == p[0] && (p + q)[1..] == p[1..] + q;
      if HasChild(v, p[0]) {
        ReadSplits(Child(v, p[0]), p[1..], q);
      }
    }
  }

  /** One step further: a field of the map that the path leads to, or an element of the list, counted from 0. */
  lemma ReadStep(item: Item, p: Path, s: Seg)
    ensures p == [] ==> ReadPath(item, p + [s]) == if s.Name? && s.name in item then Some(item[s.name]) else None
    ensures p != [] ==>
              ReadPath(item, p + [s]) ==
              match ReadPath(item, p)
              case Some(M(fields)) => (if s.Name? && s.name in fields then Some(fields[s.name]) else None)
              case Some(L(elems)) => (if s.Index? && s.index < |elems| then Some(elems[s.index]) else None)
              case _ => None
  {
    if p != [] && p[0].Name? && p[0].name in item {
      var v := item[p[0].name];
      assert (p + [s])[1..] == p[1..] + [s];
      ReadSplits(v, p[1..], [s]);
      if ReadIn(v, p[1..]).Some? {
        var u := ReadIn(v, p[1..]).value;
        assert [s][1..] == [];
        assert HasChild(u, s) ==> ReadIn(u, [s]) == Some(Child(u, s));
      }
    }
  }

  lemma PutThenChild(v: Value, s: Seg, w: Value)
    requires CanPut(v, s)
    ensures HasChild(PutChild(v, s, w), s) && Child(PutChild(v, s, w), s) == w
    ensures forall t | t != s :: HasChild(PutChild(v, s, w), t) <==> HasChild(v, t)
    ensures forall t | t != s && HasChild(v, t) :: Child(PutChild(v, s, w), t) == Child(v, t)
  {
  }

  lemma {:induction false} WriteThenReadIn(v: Value, p: Path, w: Value)
    requires WriteIn(v, p, w).Some?
    ensures ReadIn(WriteIn(v, p, w).value, p) == Some(w)
    decreases |p|
  {
    if |p| == 1 {
      PutThenChild(v, p[0], w);
      assert p[1..] == [];
    } else if |p| > 1 {
      var c := WriteIn(Child(v, p[0]), p[1..], w);
      WriteThenReadIn(Child(v, p[0]), p[1..], w);
      PutThenChild(v, p[0], c.value);
    }
  }

  /** After a successful write the path, and every path below it, reads from the value written. */
  lemma WriteThenRead(item: Item, p: Path, w: Value, below: Path)
    requires WritePath(item, p, w).Some?
    ensures ReadPath(WritePath(item, p, w).value, p) == Some(w)
    ensures ReadPath(WritePath(item, p, w).value, p + below) == ReadIn(w, below)
  {
    var item' := WritePath(item, p, w).value;
    var name := p[0].name;
    assert (p + below)[0] == p[0] && (p + below)[1..] == p[1..] + below;
    if |p| == 1 {
      assert p[1..] == [];
    } else {
      WriteThenReadIn(item[name], p[1..], w);
    }
    ReadSplits(item'[name], p[1..], below);
  }

  /** The paths part ways at some step. */
  ghost predicate Diverge(p: Path, q: Path) {
    p != [] && q != [] && (p[0] != q[0] || Diverge(p[1..], q[1..]))
  }

  lemma {:induction false} WriteElsewhereIn(v: Value, p: Path, w: Value, q: Path)
    requires WriteIn(v, p, w).Some? && Diverge(p, q)
    ensures ReadIn(WriteIn(v, p, w).value, q) == ReadIn(v, q)
    decreases |p|
  {
    if |p| == 1 {
      assert p[0] != q[0];
      PutThenChild(v, p[0], w);
    } else {
      var c := WriteIn(Child(v, p[0]), p[1..], w).value;
      PutThenChild(v, p[0], c);
      CanPutBack(v, p[0]);
      if p[0] == q[0] {
        WriteElsewhereIn(Child(v, p[0]), p[1..], w, q[1..]);
      }
    }
  }

  lemma CanPutBack(v: Value, s: Seg)
    requires HasChild(v, s)
    ensures CanPut(v, s)
  {
  }

  /** A write leaves every diverging path as it was. */
  lemma WriteElsewhere(item: Item, p: Path, w: Value, q: Path)
    requires WritePath(item, p, w).Some? && Diverge(p, q)
    ensures ReadPath(WritePath(item, p, w).value, q) == ReadPath(item, q)
  {
    if |p| > 1 && p[0] == q[0] {
      WriteElsewhereIn(item[p[0].name], p[1..], w, q[1..]);
    }
  }

  lemma {:induction false} WriteDefinedIn(v: Value, p: Path, w: Value)
    requires p != []
    ensures WriteIn(v, p, w).Some?
       <==> var parent := ReadIn(v, p[..|p| - 1]); parent.Some? && CanPut(parent.value, p[|p| - 1])
    decreases |p|
  {
    if |p| == 1 {
      assert p[..0] == [];
    } else {
      assert p[..|p| - 1][0] == p[0] && p[..|p| - 1][1..] == p[1..][..|p| - 2];
      if HasChild(v, p[0]) {
        WriteDefinedIn(Child(v, p[0]), p[1..], w);
      }
    }
  }

  /** A write succeeds exactly when it names a top-level attribute, or its parent is a container that takes the leaf. */
  lemma WriteDefinedIff(item: Item, p: Path, w: Value)
    ensures WritePath(item, p, w).Some?
       <==> p != [] && p[0].Name?
            && (|p| == 1 || (ReadPath(item, p[..|p| - 1]).Some?
                && CanPut(ReadPath(item, p[..|p| - 1]).value, p[|p| - 1])))
  {
    if |p| > 1 && p[0].Name? && p[0].name in item {
      WriteDefinedIn(item[p[0].name], p[1..], w);
      assert p[..|p| - 1][0] == p[0] && p[..|p| - 1][1..] == p[1..][..|p| - 2];
    }
  }

  lemma PutTwice(v: Value, s: Seg, a: Value, b: Value)
    requires CanPut(v, s)
    ensures CanPut(PutChild(v, s, a), s) && PutChild(PutChild(v, s, a), s, b) == PutChild(v, s, b)
  {
    match s
    case Name(n) =>
      assert v.fields[n := a][n := b] == v.fields[n := b];
    case Index(i) =>
      if i < |v.elems| {
        assert v.elems[i := a][i := b] == v.elems[i := b];
      } else {
        assert (v.elems + [a])[i := b] == v.elems + [b];
      }
  }

  lemma {:induction false} WriteTwiceIn(v: Value, p: Path, a: Value, b: Value)
    requires WriteIn(v, p, a).Some?
    ensures WriteIn(WriteIn(v, p, a).value, p, b) == WriteIn(v, p, b)
    decreases |p|
  {
    hide WriteIn, Child, PutChild, HasChild, CanPut;
    WriteInStep(v, p, a);
    WriteInStep(v, p, b);
    WriteInStep(WriteIn(v, p, a).value, p, b);
    if |p| == 1 {
      PutTwice(v, p[0], a, b);
    } else if |p| > 1 {
      var u := Child(v, p[0]);
      WriteTwiceIn(u, p[1..], a, b);
      CanPutBack(v, p[0]);
      var c := WriteIn(u, p[1..], a).value;
      PutThenChild(v, p[0], c);
      if WriteIn(u, p[1..], b).Some? {
        PutTwice(v, p[0], c, WriteIn(u, p[1..], b).value);
      }
    }
  }

  lemma WriteInStep(v: Value, p: Path, w: Value)
    ensures p == [] ==> WriteIn(v, p, w) == Some(w)
    ensures |p| == 1 ==> WriteIn(v, p, w) == if CanPut(v, p[0]) then Some(PutChild(v, p[0], w)) else None
    ensures |p| > 1 ==> WriteIn(v, p, w) ==
                        if !HasChild(v, p[0]) || WriteIn(Child(v, p[0]), p[1..], w).None? then None
                        else Some(PutChild(v, p[0], WriteIn(Child(v, p[0]), p[1..], w).value))
  {
  }

  /** Writing twice to one path is writing the second value. */
  lemma WriteTwice(item: Item, p: Path, a: Value, b: Value)
    requires WritePath(item, p, a).Some?
    ensures WritePath(WritePath(item, p, a).value, p, b) == WritePath(item, p, b)
  {
    var name := p[0].name;
    if |p| > 1 {
      WriteTwiceIn(item[name], p[1..], a, b);
      var v := WriteIn(item[name], p[1..], a).value;
      if WriteIn(item[name], p[1..], b).Some? {
        assert item[name := v][name := WriteIn(item[name], p[1..], b).value]
            == item[name := WriteIn(item[name], p[1..], b).value];
      }
    } else {
      assert item[name := a][name := b] == item[name := b];
    }
  }

  // ---- Erasing -------------------------------------------------------------------------------------

  lemma {:induction false} EraseThenReadIn(v: Value, p: Path)
    requires p != [] && p[|p| - 1].Name?
    ensures ReadIn(EraseIn(v, p), p).None?
    decreases |p|
  {
    if |p| > 1 && HasChild(v, p[0]) {
      assert p[1..][|p| - 2] == p[|p| - 1];
      EraseThenReadIn(Child(v, p[0]), p[1..]);
      CanPutBack(v, p[0]);
      PutThenChild(v, p[0], EraseIn(Child(v, p[0]), p[1..]));
    }
  }

  /** A name that has been removed is not there. */
  lemma EraseThenRead(item: Item, p: Path)
    requires p != [] && p[|p| - 1].Name?
    ensures ReadPath(ErasePath(item, p), p).None?
  {
    if |p| > 1 && p[0].Name? && p[0].name in item {
      assert p[1..][|p| - 2] == p[|p| - 1];
      EraseThenReadIn(item[p[0].name], p[1..]);
    }
  }

  lemma {:induction false} EraseElsewhereIn(v: Value, p: Path, q: Path)
    requires p != [] && p[|p| - 1].Name? && Diverge(p, q)
    ensures ReadIn(EraseIn(v, p), q) == ReadIn(v, q)
    decreases |p|
  {
    if |p| > 1 && HasChild(v, p[0]) {
      assert p[1..][|p| - 2] == p[|p| - 1];
      CanPutBack(v, p[0]);
      PutThenChild(v, p[0], EraseIn(Child(v, p[0]), p[1..]));
      if p[0] == q[0] {
        EraseElsewhereIn(Child(v, p[0]), p[1..], q[1..]);
      }
    }
  }

  /** Removing a name leaves every diverging path as it was. */
  lemma EraseElsewhere(item: Item, p: Path, q: Path)
    requires p != [] && p[|p| - 1].Name? && Diverge(p, q)
    ensures ReadPath(ErasePath(item, p), q) == ReadPath(item, q)
  {
    if |p| > 1 && p[0] == q[0] && p[0].Name? && p[0].name in item {
      assert p[1..][|p| - 2] == p[|p| - 1];
      EraseElsewhereIn(item[p[0].name], p[1..], q[1..]);
    }
  }

  lemma {:induction false} EraseIndexIn(v: Value, p: Path, i: nat, j: nat, below: Path)
    ensures ReadIn(EraseIn(v, p + [Index(i)]), p + [Index(j)] + below)
         == ReadIn(v, p + [Index(if Shifts(v, p, i) && j >= i then j + 1 else j)] + below)
    decreases |p|
  {
    var k := if Shifts(v, p, i) && j >= i then j + 1 else j;
    if p == [] {
      assert p + [Index(i)] == [Index(i)];
      assert (p + [Index(j)] + below)[1..] == below && (p + [Index(k)] + below)[1..] == below;
    } else {
      var pi := p + [Index(i)];
      assert pi[0] == p[0] && pi[1..] == p[1..] + [Index(i)];
      assert (p + [Index(j)] + below)[0] == p[0] && (p + [Index(j)] + below)[1..] == p[1..] + [Index(j)] + below;
      assert (p + [Index(k)] + below)[0] == p[0] && (p + [Index(k)] + below)[1..] == p[1..] + [Index(k)] + below;
      if HasChild(v, p[0]) {
        EraseIndexIn(Child(v, p[0]), p[1..], i, j, below);
        CanPutBack(v, p[0]);
        PutThenChild(v, p[0], EraseIn(Child(v, p[0]), pi[1..]));
      }
    }
  }

  /** The element to remove is there. */
  predicate Shifts(v: Value, p: Path, i: nat) {
    var l := ReadIn(v, p);
    l.Some? && l.value.L? && i < |l.value.elems|
  }

  /** Removing a list element moves the later ones down by one, whatever is read below them. */
  lemma EraseIndex(item: Item, p: Path, i: nat, j: nat, below: Path)
    requires p != [] && p[0].Name? && p[0].name in item
    ensures ReadPath(ErasePath(item, p + [Index(i)]), p + [Index(j)] + below)
         == ReadPath(item, p + [Index(if Shifts(item[p[0].name], p[1..], i) && j >= i then j + 1 else j)] + below)
  {
    var k := if Shifts(item[p[0].name], p[1..], i) && j >= i then j + 1 else j;
    assert (p + [Index(i)])[1..] == p[1..] + [Index(i)];
    assert (p + [Index(j)] + below)[1..] == p[1..] + [Index(j)] + below;
    assert (p + [Index(k)] + below)[1..] == p[1..] + [Index(k)] + below;
    EraseIndexIn(item[p[0].name], p[1..], i, j, below);
  }

  /** Paths that leave the way to the list, or look for a name in it. */
  ghost predicate Beside(p: Path, q: Path) {
    Diverge(p, q) || (|p| < |q| && q[..|p|] == p && q[|p|].Name?)
  }

  lemma {:induction false} EraseIndexBesideIn(v: Value, p: Path, i: nat, q: Path)
    requires Beside(p, q)
    ensures ReadIn(EraseIn(v, p + [Index(i)]), q) == ReadIn(v, q)
    decreases |p|
  {
    var pi := p + [Index(i)];
    if p != [] {
      assert pi[0] == p[0] && pi[1..] == p[1..] + [Index(i)];
      if HasChild(v, p[0]) {
        CanPutBack(v, p[0]);
        PutThenChild(v, p[0], EraseIn(Child(v, p[0]), pi[1..]));
        if p[0] == q[0] {
          BesideTail(p, q);
          EraseIndexBesideIn(Child(v, p[0]), p[1..], i, q[1..]);
        }
      }
    }
  }

  lemma BesideTail(p: Path, q: Path)
    requires p != [] && q != [] && p[0] == q[0] && Beside(p, q)
    ensures Beside(p[1..], q[1..])
  {
    if !Diverge(p, q) {
      assert q[1..][..|p| - 1] == q[..|p|][1..] == p[1..];
    }
  }

  /** Removing a list element leaves every path beside the list as it was. */
  lemma EraseIndexElsewhere(item: Item, p: Path, i: nat, q: Path)
    requires p != [] && Beside(p, q)
    ensures ReadPath(ErasePath(item, p + [Index(i)]), q) == ReadPath(item, q)
  {
    assert (p + [Index(i)])[0] == p[0] && (p + [Index(i)])[1..] == p[1..] + [Index(i)];
    if q != [] && p[0] == q[0] && p[0].Name? && p[0].name in item {
      BesideTail(p, q);
      EraseIndexBesideIn(item[p[0].name], p[1..], i, q[1..]);
    }
  }
}
