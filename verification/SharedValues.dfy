/**
 Attribute objects behind shared pointers (src/expressions/update_expression.cpp): write_path and erase_path
 change a clone of the root attribute.  Neither method may modify an object that existed before the call, so
 every other holder of a pointer keeps seeing what it saw.
 */
module SharedValues {
  import opened Bytes
  import opened Values
  import opened DocumentPaths

  datatype Content = Scalar(v: Value) | Fields(fields: map<ByteString, Obj>) | Elems(elems: seq<Obj>)

  /** AttributeValue; `repr` is the footprint of a freshly built tree. */
  class Obj {
    var content: Content
    ghost var repr: set<Obj>

    constructor (content: Content, ghost below: set<Obj>)
      ensures this.content == content && repr == {this} + below
    {
      this.content := content;
      repr := {this} + below;
    }
  }

  /** Within the objects of s, o stands for v; pointers may be shared. */
  ghost predicate Shows(o: Obj, v: Value, s: set<Obj>)
    reads s
    decreases v
  {
    && o in s
    && match v
       case M(fields) =>
         && o.content.Fields? && o.content.fields.Keys == fields.Keys
         && forall k | k in fields :: Shows(o.content.fields[k], fields[k], s)
       case L(elems) =>
         && o.content.Elems? && |o.content.elems| == |elems|
         && forall i | 0 <= i < |elems| :: Shows(o.content.elems[i], elems[i], s)
       case _ => o.content == Scalar(v)
  }

  /** o is the root of a tree of its own: no object is reachable twice. */
  ghost predicate Tree(o: Obj, v: Value)
    reads o, o.repr
    decreases v
  {
    && o in o.repr
    && match v
       case M(fields) =>
         && o.content.Fields? && o.content.fields.Keys == fields.Keys
         && (forall k | k in fields ::
               var c := o.content.fields[k]; c in o.repr && c.repr <= o.repr - {o} && Tree(c, fields[k]))
         && (forall j, k | j in fields && k in fields && j != k :: o.content.fields[j].repr !! o.content.fields[k].repr)
       case L(elems) =>
         && o.content.Elems? && |o.content.elems| == |elems|
         && (forall i | 0 <= i < |elems| ::
               var c := o.content.elems[i]; c in o.repr && c.repr <= o.repr - {o} && Tree(c, elems[i]))
         && (forall i, j | 0 <= i < j < |elems| :: o.content.elems[i].repr !! o.content.elems[j].repr)
       case _ => o.content == Scalar(v)
  }

  lemma {:induction false} ShowsMore(o: Obj, v: Value, s: set<Obj>, s': set<Obj>)
    requires Shows(o, v, s) && s <= s'
    ensures Shows(o, v, s')
    decreases v
  {
    match v {
      case M(fields) =>
        forall k | k in fields ensures Shows(o.content.fields[k], fields[k], s') {
          ShowsMore(o.content.fields[k], fields[k], s, s');
        }
      case L(elems) =>
        forall i | 0 <= i < |elems| ensures Shows(o.content.elems[i], elems[i], s') {
          ShowsMore(o.content.elems[i], elems[i], s, s');
        }
      case _ =>
    }
  }

  lemma {:induction false} TreeShows(o: Obj, v: Value)
    requires Tree(o, v)
    ensures Shows(o, v, o.repr)
    decreases v
  {
    match v {
      case M(fields) =>
        forall k | k in fields ensures Shows(o.content.fields[k], fields[k], o.repr) {
          TreeShows(o.content.fields[k], fields[k]);
          ShowsMore(o.content.fields[k], fields[k], o.content.fields[k].repr, o.repr);
        }
      case L(elems) =>
        forall i | 0 <= i < |elems| ensures Shows(o.content.elems[i], elems[i], o.repr) {
          TreeShows(o.content.elems[i], elems[i]);
          ShowsMore(o.content.elems[i], elems[i], o.content.elems[i].repr, o.repr);
        }
      case _ =>
    }
  }

  // ---- deep_clone ----------------------------------------------------------------------------------

  /** A copy of everything reachable, made only of new objects. */
  method DeepClone(o: Obj, ghost v: Value, ghost s: set<Obj>) returns (c: Obj)
    requires Shows(o, v, s)
    ensures Tree(c, v) && fresh(c.repr)
    decreases v, 2
  {
    match o.content {
      case Fields(fields) =>
        c := CloneFields(fields, v, s);
      case Elems(elems) =>
        c := CloneElems(elems, v, s);
      case Scalar(x) =>
        c := new Obj(Scalar(x), {});
    }
  }

  method CloneElems(elems: seq<Obj>, ghost v: Value, ghost s: set<Obj>) returns (c: Obj)
    requires v.L? && |elems| == |v.elems| && forall i | 0 <= i < |elems| :: Shows(elems[i], v.elems[i], s)
    ensures Tree(c, v) && fresh(c.repr)
    decreases v, 0
  {
    var copies: seq<Obj> := [];
    ghost var below: set<Obj> := {};
    var i := 0;
    while i < |elems|
      invariant 0 <= i <= |elems| && |copies| == i && fresh(below)
      invariant forall j | 0 <= j < i :: copies[j] in below && copies[j].repr <= below && Tree(copies[j], v.elems[j])
      invariant forall j, k | 0 <= j < k < i :: copies[j].repr !! copies[k].repr
      invariant forall j | 0 <= j < |elems| :: Shows(elems[j], v.elems[j], s)
    {
      var e := DeepClone(elems[i], v.elems[i], s);
      below := below + e.repr;
      copies := copies + [e];
      i := i + 1;
    }
    c := new Obj(Elems(copies), below);
  }

  /** Trees of their own for some of the fields, side by side in `below`. */
  ghost predicate Copied(copies: map<ByteString, Obj>, v: Value, below: set<Obj>)
    requires v.M?
    reads below
  {
    && copies.Keys <= v.fields.Keys
    && (forall k | k in copies :: copies[k] in below && copies[k].repr <= below && Tree(copies[k], v.fields[k]))
    && (forall j, k | j in copies && k in copies && j != k :: copies[j].repr !! copies[k].repr)
  }

  lemma CopiedMore(copies: map<ByteString, Obj>, v: Value, below: set<Obj>, k: ByteString, e: Obj)
    requires v.M? && Copied(copies, v, below) && k in v.fields && k !in copies && Tree(e, v.fields[k])
             && e.repr !! below
    ensures Copied(copies[k := e], v, below + e.repr)
  {
    var more := copies[k := e];
    assert e in e.repr;
    forall j | j in more
      ensures more[j] in below + e.repr && more[j].repr <= below + e.repr && Tree(more[j], v.fields[j])
      ensures j != k ==> more[j].repr !! e.repr
    {
      assert j != k ==> more[j] == copies[j];
    }
  }

  lemma CopiedIsTree(c: Obj, copies: map<ByteString, Obj>, v: Value, below: set<Obj>)
    requires v.M? && Copied(copies, v, below) && copies.Keys == v.fields.Keys
    requires c.content == Fields(copies) && c.repr == {c} + below && c !in below
    ensures Tree(c, v)
  {
  }

  lemma NothingCopied(v: Value)
    requires v.M?
    ensures Copied(map[], v, {})
  {
  }

  method CopyFields(fields: map<ByteString, Obj>, ghost v: Value, ghost s: set<Obj>) returns (copies: map<ByteString,
      Obj>, ghost below: set<Obj>)
    requires v.M? && fields.Keys == v.fields.Keys && forall k | k in fields :: Shows(fields[k], v.fields[k], s)
    ensures copies.Keys == v.fields.Keys && Copied(copies, v, below) && fresh(below)
    decreases v, 0
  {
    hide Tree, Shows, Copied;
    copies, below := map[], {};
    NothingCopied(v);
    var todo := fields.Keys;
    while todo != {}
      invariant todo <= fields.Keys && copies.Keys == fields.Keys - todo && fresh(below)
      invariant Copied(copies, v, below)
      decreases |todo|
    {
      var k :| k in todo;
      var e := DeepClone(fields[k], v.fields[k], s);
      CopiedMore(copies, v, below, k, e);
      below := below + e.repr;
      copies := copies[k := e];
      todo := todo - {k};
    }
  }

  method CloneFields(fields: map<ByteString, Obj>, ghost v: Value, ghost s: set<Obj>) returns (c: Obj)
    requires v.M? && fields.Keys == v.fields.Keys && forall k | k in fields :: Shows(fields[k], v.fields[k], s)
    ensures Tree(c, v) && fresh(c.repr)
    decreases v, 1
  {
    hide Tree, Shows, Copied;
    var copies, below := CopyFields(fields, v, s);
    c := new Obj(Fields(copies), below);
    CopiedIsTree(c, copies, v, below);
  }

  // ---- Changing one place of a clone ---------------------------------------------------------------

  function SegChild(o: Content, s: Seg): (c: Option<Obj>) {
    match s
    case Name(n) => if o.Fields? && n in o.fields then Some(o.fields[n]) else None
    case Index(i) => if o.Elems? && i < |o.elems| then Some(o.elems[i]) else None
  }

  /** What a tree's root says about its children. */
  lemma TreeChild(o: Obj, v: Value, s: Seg)
    requires Tree(o, v)
    ensures SegChild(o.content, s).Some? <==> HasChild(v, s)
    ensures HasChild(v, s) ==>
              var c := SegChild(o.content, s).value;
              c in o.repr && c.repr <= o.repr - {o} && Tree(c, Child(v, s))
  {
  }

  /** The children of a node with this content stand for the children of v. */
  ghost predicate ChildrenShow(content: Content, v: Value, s: set<Obj>)
    reads s
  {
    match v
    case M(fields) =>
      && content.Fields? && content.fields.Keys == fields.Keys
      && forall k | k in fields :: Shows(content.fields[k], fields[k], s)
    case L(elems) =>
      && content.Elems? && |content.elems| == |elems|
      && forall i | 0 <= i < |elems| :: Shows(content.elems[i], elems[i], s)
    case _ => content == Scalar(v)
  }

  lemma ShowsByChildren(o: Obj, v: Value, s: set<Obj>)
    ensures Shows(o, v, s) <==> o in s && ChildrenShow(o.content, v, s)
  {
  }

  lemma ChildrenMore(content: Content, v: Value, s: set<Obj>, s': set<Obj>)
    requires ChildrenShow(content, v, s) && s <= s'
    ensures ChildrenShow(content, v, s')
  {
    match v {
      case M(fields) =>
        forall k | k in fields ensures Shows(content.fields[k], fields[k], s') {
          ShowsMore(content.fields[k], fields[k], s, s');
        }
      case L(elems) =>
        forall i | 0 <= i < |elems| ensures Shows(content.elems[i], elems[i], s') {
          ShowsMore(content.elems[i], elems[i], s, s');
        }
      case _ =>
    }
  }

  lemma TreeChildrenShow(o: Obj, v: Value)
    requires Tree(o, v)
    ensures ChildrenShow(o.content, v, o.repr - {o})
  {
    match v {
      case M(fields) =>
        forall k | k in fields ensures Shows(o.content.fields[k], fields[k], o.repr - {o}) {
          TreeShows(o.content.fields[k], fields[k]);
          ShowsMore(o.content.fields[k], fields[k], o.content.fields[k].repr, o.repr - {o});
        }
      case L(elems) =>
        forall i | 0 <= i < |elems| ensures Shows(o.content.elems[i], elems[i], o.repr - {o}) {
          TreeShows(o.content.elems[i], elems[i]);
          ShowsMore(o.content.elems[i], elems[i], o.content.elems[i].repr, o.repr - {o});
        }
      case _ =>
    }
  }

  predicate CanPutContent(content: Content, s: Seg) {
    match s
    case Name(n) => content.Fields?
    case Index(i) => content.Elems? && i <= |content.elems|
  }

  function PutContent(content: Content, s: Seg, value: Obj): (r: Content)
    requires CanPutContent(content, s)
  {
    match s
    case Name(n) => Fields(content.fields[n := value])
    case Index(i) => Elems(if i < |content.elems| then content.elems[i := value] else content.elems + [value])
  }

  lemma PutShows(content: Content, v: Value, s: Seg, value: Obj, w: Value, more: set<Obj>)
    requires ChildrenShow(content, v, more)
    ensures CanPutContent(content, s) <==> CanPut(v, s)
    ensures CanPut(v, s) && Shows(value, w, more) ==>
            ChildrenShow(PutContent(content, s, value), PutChild(v, s, w), more)
  {
    hide Shows;
  }

  function DropContent(content: Content, s: Seg): (r: Content) {
    match s
    case Name(n) => if content.Fields? then Fields(content.fields - {n}) else content
    case Index(i) => if content.Elems? && i < |content.elems| then Elems(content.elems[..i] + content.elems[i + 1..])
        else content
  }

  lemma DropShows(content: Content, v: Value, s: Seg, more: set<Obj>)
    requires ChildrenShow(content, v, more)
    ensures ChildrenShow(DropContent(content, s), DropChild(v, s), more)
  {
    hide Shows;
  }

  /** All of a tree but one child's objects. */
  ghost predicate Around(o: Obj, v: Value, s: Seg, more: set<Obj>)
    requires HasChild(v, s)
    reads more
  {
    && o in more
    && match v
       case M(fields) =>
         && o.content.Fields? && o.content.fields.Keys == fields.Keys
         && forall k | k in fields && Name(k) != s :: Shows(o.content.fields[k], fields[k], more)
       case L(elems) =>
         && o.content.Elems? && |o.content.elems| == |elems|
         && forall i | 0 <= i < |elems| && Index(i) != s :: Shows(o.content.elems[i], elems[i], more)
  }

  lemma TreeAround(o: Obj, v: Value, s: Seg)
    requires Tree(o, v) && HasChild(v, s)
    ensures SegChild(o.content, s).Some? && Around(o, v, s, o.repr - SegChild(o.content, s).value.repr)
  {
    var c := SegChild(o.content, s).value;
    var others := o.repr - c.repr;
    match v {
      case M(fields) =>
        forall k | k in fields && Name(k) != s ensures Shows(o.content.fields[k], fields[k], others) {
          TreeShows(o.content.fields[k], fields[k]);
          ShowsMore(o.content.fields[k], fields[k], o.content.fields[k].repr, others);
        }
      case L(elems) =>
        forall i | 0 <= i < |elems| && Index(i) != s ensures Shows(o.content.elems[i], elems[i], others) {
          TreeShows(o.content.elems[i], elems[i]);
          ShowsMore(o.content.elems[i], elems[i], o.content.elems[i].repr, others);
        }
    }
  }

  /** Putting the changed child back among the others. */
  lemma AroundShows(o: Obj, v: Value, s: Seg, w: Value, others: set<Obj>, inner: set<Obj>, more: set<Obj>)
    requires HasChild(v, s) && Around(o, v, s, others) && others <= more && inner <= more
    requires SegChild(o.content, s).Some? && Shows(SegChild(o.content, s).value, w, inner)
    ensures CanPut(v, s) && Shows(o, PutChild(v, s, w), more)
  {
    ShowsMore(SegChild(o.content, s).value, w, inner, more);
    match v {
      case M(fields) =>
        forall k | k in fields && Name(k) != s ensures Shows(o.content.fields[k], fields[k], more) {
          ShowsMore(o.content.fields[k], fields[k], others, more);
        }
      case L(elems) =>
        forall i | 0 <= i < |elems| && Index(i) != s ensures Shows(o.content.elems[i], elems[i], more) {
          ShowsMore(o.content.elems[i], elems[i], others, more);
        }
    }
  }

  lemma TreeRoot(o: Obj, v: Value)
    requires Tree(o, v)
    ensures o in o.repr
  {
  }

  /** The last step of write_path, in the container that holds the leaf. */
  method PutLeaf(cur: Obj, ghost v: Value, s: Seg, value: Obj, ghost w: Value, ghost ws: set<Obj>) returns (ok: bool)
    requires Tree(cur, v) && Shows(value, w, ws) && ws !! cur.repr
    modifies cur`content
    ensures ok <==> CanPut(v, s)
    ensures ok ==> Shows(cur, PutChild(v, s, w), cur.repr + ws)
  {
    ghost var below := cur.repr - {cur} + ws;
    assert cur in cur.repr;
    TreeChildrenShow(cur, v);
    hide Tree, Shows, ChildrenShow;
    ChildrenMore(cur.content, v, cur.repr - {cur}, below);
    ShowsMore(value, w, ws, below);
    PutShows(cur.content, v, s, value, w, below);
    ok := CanPutContent(cur.content, s);
    if ok {
      cur.content := PutContent(cur.content, s, value);
      ChildrenMore(cur.content, PutChild(v, s, w), below, cur.repr + ws);
      ShowsByChildren(cur, PutChild(v, s, w), cur.repr + ws);
    }
  }

  /** write_path inside the cloned root: walk to the leaf's container and store the pointer there. */
  method Assign(cur: Obj, ghost v: Value, p: Path, value: Obj, ghost w: Value, ghost ws: set<Obj>) returns (ok: bool)
    requires p != [] && Tree(cur, v) && Shows(value, w, ws) && ws !! cur.repr
    modifies cur.repr`content
    ensures ok <==> WriteIn(v, p, w).Some?
    ensures ok ==> Shows(cur, WriteIn(v, p, w).value, cur.repr + ws)
    decreases |p|
  {
    hide Tree, Shows, Around, SegChild;
    TreeRoot(cur, v);
    if |p| == 1 {
      ok := PutLeaf(cur, v, p[0], value, w, ws);
      return;
    }
    TreeChild(cur, v, p[0]);
    var child := SegChild(cur.content, p[0]);
    if child.None? {
      return false;
    }
    TreeAround(cur, v, p[0]);
    ghost var others := cur.repr - child.value.repr;
    ok := Assign(child.value, Child(v, p[0]), p[1..], value, w, ws);
    if ok {
      AroundShows(cur, v, p[0], WriteIn(Child(v, p[0]), p[1..], w).value, others, child.value.repr + ws, cur.repr + ws);
    }
  }

  /** erase_path inside the cloned root. */
  method Remove(cur: Obj, ghost v: Value, p: Path)
    requires p != [] && Tree(cur, v)
    modifies cur.repr`content
    ensures Shows(cur, EraseIn(v, p), cur.repr)
    decreases |p|
  {
    assert cur in cur.repr;
    if |p| == 1 {
      TreeChildrenShow(cur, v);
      hide Tree, Shows, ChildrenShow;
      DropShows(cur.content, v, p[0], cur.repr - {cur});
      cur.content := DropContent(cur.content, p[0]);
      ChildrenMore(cur.content, DropChild(v, p[0]), cur.repr - {cur}, cur.repr);
      ShowsByChildren(cur, DropChild(v, p[0]), cur.repr);
      return;
    }
    TreeChild(cur, v, p[0]);
    var child := SegChild(cur.content, p[0]);
    if child.None? {
      TreeShows(cur, v);
      return;
    }
    TreeAround(cur, v, p[0]);
    hide Tree, Shows, Around;
    ghost var others := cur.repr - child.value.repr;
    Remove(child.value, Child(v, p[0]), p[1..]);
    AroundShows(cur, v, p[0], EraseIn(Child(v, p[0]), p[1..]), others, child.value.repr, cur.repr);
  }

  // ---- Items ---------------------------------------------------------------------------------------

  ghost predicate ItemShows(item: map<ByteString, Obj>, values: Item, s: set<Obj>)
    reads s
  {
    item.Keys == values.Keys && forall k | k in item :: Shows(item[k], values[k], s)
  }

  lemma ItemWith(item: map<ByteString, Obj>, values: Item, s: set<Obj>, name: ByteString, o: Obj, v: Value,
      s': set<Obj>)
    requires ItemShows(item, values, s) && s <= s' && Shows(o, v, s')
    ensures ItemShows(item[name := o], values[name := v], s')
  {
    forall k | k in item && k != name ensures Shows(item[k], values[k], s') {
      ShowsMore(item[k], values[k], s, s');
    }
  }

  /** write_path: no object that existed before is changed, and the new item stands for the written one. */
  method WriteShared(item: map<ByteString, Obj>, ghost values: Item, p: Path, value: Obj, ghost w: Value,
      ghost s: set<Obj>)
    returns (r: Option<map<ByteString, Obj>>, ghost s': set<Obj>)
    requires ItemShows(item, values, s) && Shows(value, w, s)
    ensures r.Some? <==> WritePath(values, p, w).Some?
    ensures s <= s' && fresh(s' - s)
    ensures r.Some? ==> ItemShows(r.value, WritePath(values, p, w).value, s')
  {
    s' := s;
    if p == [] || p[0].Index? {
      return None, s;
    }
    var name := p[0].name;
    if |p| == 1 {
      ItemWith(item, values, s, name, value, w, s);
      return Some(item[name := value]), s;
    }
    if name !in item {
      return None, s;
    }
    ghost var v := values[name];
    hide Tree, Shows, ItemShows;
    assert Shows(item[name], v, s) by { ItemAt(item, values, s, name); }
    var root := DeepClone(item[name], v, s);
    var ok := Assign(root, v, p[1..], value, w, s);
    if !ok {
      return None, s;
    }
    s' := root.repr + s;
    ItemWith(item, values, s, name, root, WriteIn(v, p[1..], w).value, s');
    return Some(item[name := root]), s';
  }

  lemma ItemAt(item: map<ByteString, Obj>, values: Item, s: set<Obj>, name: ByteString)
    requires ItemShows(item, values, s) && name in item
    ensures name in values && Shows(item[name], values[name], s)
  {
  }

  /** erase_path, likewise. */
  method EraseShared(item: map<ByteString, Obj>, ghost values: Item, p: Path, ghost s: set<Obj>)
    returns (r: map<ByteString, Obj>, ghost s': set<Obj>)
    requires ItemShows(item, values, s)
    ensures s <= s' && fresh(s' - s)
    ensures ItemShows(r, ErasePath(values, p), s')
  {
    if p == [] || p[0].Index? {
      return item, s;
    }
    var name := p[0].name;
    if |p| == 1 {
      return item - {name}, s;
    }
    if name !in item {
      return item, s;
    }
    ghost var v := values[name];
    hide Tree, Shows, ItemShows;
    assert Shows(item[name], v, s) by { ItemAt(item, values, s, name); }
    var root := DeepClone(item[name], v, s);
    Remove(root, v, p[1..]);
    s' := root.repr + s;
    ShowsMore(root, EraseIn(v, p[1..]), root.repr, s');
    ItemWith(item, values, s, name, root, EraseIn(v, p[1..]), s');
    return item[name := root], s';
  }

  // ---- A whole expression --------------------------------------------------------------------------

  /** read_path: the pointer at the path, not a copy. */
  method ReadShared(item: map<ByteString, Obj>, ghost values: Item, p: Path, ghost s: set<Obj>) returns (r: Option<Obj>)
    requires ItemShows(item, values, s)
    ensures r.Some? <==> ReadPath(values, p).Some?
    ensures r.Some? ==> Shows(r.value, ReadPath(values, p).value, s)
  {
    if p == [] || p[0].Index? || p[0].name !in item {
      return None;
    }
    var cur, i: nat := item[p[0].name], 1;
    ghost var v := values[p[0].name];
    while i < |p|
      invariant 1 <= i <= |p| && Shows(cur, v, s) && ReadPath(values, p) == ReadIn(v, p[i..])
    {
      var next := ChildOf(cur, v, p[i], s);
      assert p[i..][0] == p[i] && p[i..][1..] == p[i + 1..];
      if next.None? {
        return None;
      }
      cur, v, i := next.value, Child(v, p[i]), i + 1;
    }
    assert p[i..] == [];
    return Some(cur);
  }

  /** One step down. */
  method ChildOf(o: Obj, ghost v: Value, step: Seg, ghost s: set<Obj>) returns (r: Option<Obj>)
    requires Shows(o, v, s)
    ensures r.Some? <==> HasChild(v, step)
    ensures r.Some? ==> Shows(r.value, Child(v, step), s)
  {
    match step {
      case Name(n) =>
        if o.content.Fields? && n in o.content.fields {
          return Some(o.content.fields[n]);
        }
      case Index(i) =>
        if o.content.Elems? && i < |o.content.elems| {
          return Some(o.content.elems[i]);
        }
    }
    return None;
  }

  /** What an action stores: an object it was given, or the very object that another path leads to. */
  datatype SharedEdit = Store(path: Path, value: Obj) | Copy(path: Path, from: Path) | Drop(path: Path)

  /** One edit on values; w is what a stored object stands for. */
  ghost function EditValue(values: Item, e: SharedEdit, w: Value): (r: Option<Item>) {
    match e
    case Store(p, _) => WritePath(values, p, w)
    case Copy(p, from) => (match ReadPath(values, from) case None => None case Some(v) => WritePath(values, p, v))
    case Drop(p) => Some(ErasePath(values, p))
  }

  ghost function EditValues(values: Item, edits: seq<SharedEdit>, ws: seq<Value>): (r: Option<Item>)
    requires |ws| == |edits|
    decreases |edits|
  {
    if edits == [] then Some(values)
    else match EditValue(values, edits[0], ws[0])
      case None => None
      case Some(next) => EditValues(next, edits[1..], ws[1..])
  }

  method EditOnce(item: map<ByteString, Obj>, ghost values: Item, e: SharedEdit, ghost w: Value, ghost s: set<Obj>)
    returns (r: Option<map<ByteString, Obj>>, ghost s': set<Obj>)
    requires ItemShows(item, values, s) && (e.Store? ==> Shows(e.value, w, s))
    ensures r.Some? <==> EditValue(values, e, w).Some?
    ensures s <= s' && fresh(s' - s)
    ensures r.Some? ==> ItemShows(r.value, EditValue(values, e, w).value, s')
  {
    hide ItemShows, Shows, WritePath, ErasePath, ReadPath;
    s' := s;
    match e {
      case Store(p, value) =>
        r, s' := WriteShared(item, values, p, value, w, s);
      case Copy(p, from) =>
        var o := ReadShared(item, values, from, s);
        if o.None? {
          return None, s;
        }
        r, s' := WriteShared(item, values, p, o.value, ReadPath(values, from).value, s);
      case Drop(p) =>
        var kept;
        kept, s' := EraseShared(item, values, p, s);
        r := Some(kept);
    }
  }

  /**
   All edits of an expression, one after another, though later ones may store objects that earlier ones stored:
   no object that existed before is changed, so the item the caller holds still stands for what it stood for.
   */
  method EditShared(item: map<ByteString, Obj>, ghost values: Item, edits: seq<SharedEdit>, ghost ws: seq<Value>,
                    ghost s: set<Obj>) returns (r: Option<map<ByteString, Obj>>, ghost s': set<Obj>)
    requires ItemShows(item, values, s) && |ws| == |edits|
    requires forall i | 0 <= i < |edits| && edits[i].Store? :: Shows(edits[i].value, ws[i], s)
    ensures r.Some? <==> EditValues(values, edits, ws).Some?
    ensures s <= s' && fresh(s' - s) && ItemShows(item, values, s)
    ensures r.Some? ==> ItemShows(r.value, EditValues(values, edits, ws).value, s')
  {
    hide ItemShows, Shows, EditValue;
    var cur, i: nat := item, 0;
    ghost var now := values;
    s' := s;
    assert edits[0..] == edits && ws[0..] == ws;
    while i < |edits|
      invariant i <= |edits| && s <= s' && fresh(s' - s) && ItemShows(cur, now, s')
      invariant EditValues(values, edits, ws) == EditValues(now, edits[i..], ws[i..])
      invariant forall j | 0 <= j < |edits| && edits[j].Store? :: Shows(edits[j].value, ws[j], s)
    {
      assert edits[i..][1..] == edits[i + 1..] && ws[i..][1..] == ws[i + 1..];
      if edits[i].Store? {
        ShowsMore(edits[i].value, ws[i], s, s');
      }
      ghost var before := s';
      r, s' := EditOnce(cur, now, edits[i], ws[i], before);
      if r.None? {
        return;
      }
      cur, now, i := r.value, EditValue(now, edits[i], ws[i]).value, i + 1;
    }
    assert edits[i..] == [];
    return Some(cur), s';
  }
}
