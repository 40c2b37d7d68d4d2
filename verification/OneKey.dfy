/**
 The algebra of layers at one key: what a layer holds there, what it holds when laid over another, and what a lookup
 sees through it.
 */
module OneKey {
  import opened Bytes
  import opened Values
  import opened Layers

  function On(l: Layer, k: Key): (o: Option<Entry>) {
    if k in l then Some(l[k]) else None
  }

  function Over(lower: Option<Entry>, upper: Option<Entry>): (o: Option<Entry>) {
    if upper.Some? then upper else lower
  }

  /** What a lookup finds through an entry over what it would find below. */
  function Seen(below: Option<Item>, o: Option<Entry>): (r: Option<Item>) {
    match o
    case None => below
    case Some(e) => if e.deleted then None else Some(e.item)
  }

  lemma OnMerge(a: Layer, b: Layer, k: Key)
    ensures On(a + b, k) == Over(On(a, k), On(b, k))
  {
  }

  lemma SeenApplied(s: Store, l: Layer, k: Key)
    ensures Find(Apply(s, l), k) == Seen(Find(s, k), On(l, k))
  {
    FindApplied(s, l, k);
  }

  lemma SeenOver(below: Option<Item>, lower: Option<Entry>, upper: Option<Entry>)
    ensures Seen(below, Over(lower, upper)) == Seen(Seen(below, lower), upper)
  {
  }

  /** The last record of the key decides. */
  lemma LogOver(a: seq<Write>, b: seq<Write>, k: Key)
    ensures On(LogLayer(a + b), k) == Over(On(LogLayer(a), k), On(LogLayer(b), k))
  {
    hide LogLayer;
    LogLayerAppend(a, b);
    OnMerge(LogLayer(a), LogLayer(b), k);
  }

  lemma LogOneMore(ws: seq<Write>, w: Write, k: Key)
    ensures On(LogLayer(ws + [w]), k) == if w.key == k then Some(EntryOf(w)) else On(LogLayer(ws), k)
  {
    assert (ws + [w])[..|ws|] == ws;
  }

  lemma SpecOver(a: seq<Write>, b: seq<Write>, k: Key)
    ensures Find(Spec(map[], a + b), k) == Seen(Find(Spec(map[], a), k), On(LogLayer(b), k))
  {
    hide Spec, LogLayer, Apply, Find;
    SpecAppend(map[], a, b);
    SpecIsApply(Spec(map[], a), b);
    SeenApplied(Spec(map[], a), LogLayer(b), k);
  }

  lemma NoRecord(k: Key)
    ensures On(LogLayer([]), k) == None
  {
  }
}
