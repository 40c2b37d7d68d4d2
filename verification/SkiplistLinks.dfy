/**
 The forward pointers of a skip list, as a table: entry [p][i] is where position p points at level i.
 Position 0 is the head.  Kept apart from the heap so that the splice can be reasoned about as a table update.
 */
module SkiplistLinks {
  /** The first position at or after `from` that is taller than i. */
  function NextIndex(hs: seq<nat>, from: nat, i: nat): (q: nat)
    decreases |hs| - from
  {
    if from >= |hs| || hs[from] > i then from else NextIndex(hs, from + 1, i)
  }

  predicate NextIs(hs: seq<nat>, from: nat, i: nat, q: nat) {
    && from <= q && (from <= |hs| ==> q <= |hs|)
    && (q < |hs| ==> hs[q] > i)
    && (forall r | from <= r < q && r < |hs| :: hs[r] <= i)
  }

  lemma {:induction false} NextIndexIs(hs: seq<nat>, from: nat, i: nat)
    ensures NextIs(hs, from, i, NextIndex(hs, from, i))
    decreases |hs| - from
  {
    if from < |hs| && hs[from] <= i {
      NextIndexIs(hs, from + 1, i);
    }
  }

  lemma NextUnique(hs: seq<nat>, from: nat, i: nat, q: nat)
    requires from <= |hs| && NextIs(hs, from, i, q)
    ensures NextIndex(hs, from, i) == q
  {
    NextIndexIs(hs, from, i);
  }

  /** Position q of the list, or the null past its end. */
  function At<N>(nodes: seq<N>, end: N, q: nat): (n: N) {
    if q < |nodes| then nodes[q] else end
  }

  /** Every pointer leads to the next position tall enough. */
  ghost predicate Linked<N>(links: seq<seq<N>>, nodes: seq<N>, end: N, hs: seq<nat>) {
    && |links| == |nodes| == |hs|
    && (forall p | 0 <= p < |links| :: |links[p]| == hs[p])
    && (forall p, i | 0 <= p < |links| && 0 <= i < hs[p] :: links[p][i] == At(nodes, end, NextIndex(hs, p + 1, i)))
  }

  /** The same with position `at` spliced in below level n only. */
  ghost predicate PartLinked<N>(links: seq<seq<N>>, nodes: seq<N>, end: N, hs: seq<nat>, at: nat, n: nat) {
    && at < |links| == |nodes| == |hs|
    && (forall p | 0 <= p < |links| :: |links[p]| == hs[p])
    && (forall p, i | 0 <= p < |links| && 0 <= i < hs[p]
        && i < n :: links[p][i] == At(nodes, end, NextIndex(hs, p + 1, i)))
    && (forall p, i | 0 <= p < |links| && 0 <= i < hs[p] && i >= n && p != at ::
          links[p][i] == At(nodes, end, NextIndex(hs[at := 0], p + 1, i)))
  }

  function Insert<T>(s: seq<T>, at: nat, x: T): (r: seq<T>)
    requires at <= |s|
    ensures |r| == |s| + 1 && r[at] == x
    ensures forall i | 0 <= i < at :: r[i] == s[i]
    ensures forall i | at < i < |r| :: r[i] == s[i - 1]
  {
    s[..at] + [x] + s[at..]
  }

  lemma SkippedNextIs(hs: seq<nat>, hs': seq<nat>, at: nat, from: nat, i: nat, q: nat)
    requires 0 < at <= |hs| && from <= |hs| && |hs'| == |hs| + 1 && hs'[at] == 0
    requires forall r | 0 <= r < at :: hs'[r] == hs[r]
    requires forall r | at < r < |hs'| :: hs'[r] == hs[r - 1]
    requires NextIs(hs, from, i, q)
    ensures NextIs(hs', if from <= at then from else from + 1, i, if q < at then q else q + 1)
  {
    var from' := if from <= at then from else from + 1;
    var q' := if q < at then q else q + 1;
    forall r | from' <= r < q' && r < |hs'| ensures hs'[r] <= i {
      if r > at {
        assert hs[r - 1] <= i;
      }
    }
  }

  lemma SkippedNext(hs: seq<nat>, at: nat, h: nat, p: nat, i: nat)
    requires 0 < at <= |hs| && p < |hs|
    ensures var q := NextIndex(hs, p + 1, i);
            var p' := if p < at then p else p + 1;
            NextIndex(Insert<nat>(hs, at, h)[at := 0], p' + 1, i) == if q < at then q else q + 1
  {
    var q := NextIndex(hs, p + 1, i);
    var hs' := Insert<nat>(hs, at, h)[at := 0];
    NextIndexIs(hs, p + 1, i);
    SkippedNextIs(hs, hs', at, p + 1, i, q);
    hide NextIndex, Insert;
    NextUnique(hs', if p < at then p + 1 else p + 2, i, if q < at then q else q + 1);
  }

  /** Before any level is spliced, the old pointers simply skip the new position. */
  lemma BeforeSplice<N>(links: seq<seq<N>>, nodes: seq<N>, end: N, hs: seq<nat>, at: nat, node: N, own: seq<N>)
    requires Linked(links, nodes, end, hs) && 0 < at <= |nodes|
    ensures PartLinked(Insert(links, at, own), Insert(nodes, at, node), end, Insert<nat>(hs, at, |own|), at, 0)
  {
    hide NextIndex, Insert;
    var links', nodes', hs' := Insert(links, at, own), Insert(nodes, at, node), Insert<nat>(hs, at, |own|);
    forall p', i | 0 <= p' < |links'| && 0 <= i < hs'[p'] && p' != at
      ensures links'[p'][i] == At(nodes', end, NextIndex(hs'[at := 0], p' + 1, i))
    {
      var p := if p' < at then p' else p' - 1;
      assert hs'[p'] == hs[p] && links'[p'] == links[p];
      SkippedNext(hs, at, |own|, p, i);
      assert links[p][i] == At(nodes, end, NextIndex(hs, p + 1, i));
      NextIndexIs(hs, p + 1, i);
      var q := NextIndex(hs, p + 1, i);
      assert At(nodes', end, if q < at then q else q + 1) == At(nodes, end, q);
    }
  }

  /** One turn of the linking loop. */
  lemma SpliceLevel<N>(links: seq<seq<N>>, nodes: seq<N>, end: N, hs: seq<nat>, at: nat, n: nat, p: nat)
    requires PartLinked(links, nodes, end, hs, at, n) && p < at && n < hs[at] && n < hs[p]
    requires NextIndex(hs[at := 0], p + 1, n) > at
    ensures PartLinked(links[at := links[at][n := links[p][n]]][p := links[p][n := nodes[at]]], nodes, end, hs, at,
            n + 1)
  {
    hide NextIndex;
    var links' := links[at := links[at][n := links[p][n]]][p := links[p][n := nodes[at]]];
    assert forall q | 0 <= q < |links'| :: |links'[q]| == hs[q];
    assert forall q, i | 0 <= q < |links'| && 0 <= i < hs[q] && i != n :: links'[q][i] == links[q][i];
    forall q | 0 <= q < |links'| && n < hs[q] ensures links'[q][n] == At(nodes, end, NextIndex(hs, q + 1, n)) {
      SpliceAt(hs, at, n, p, q);
      assert links[p][n] == At(nodes, end, NextIndex(hs[at := 0], p + 1, n));
      if q != at && q != p {
        assert links[q][n] == At(nodes, end, NextIndex(hs[at := 0], q + 1, n));
      }
    }
  }

  lemma SpliceAt(hs: seq<nat>, at: nat, n: nat, p: nat, q: nat)
    requires p < at < |hs| && n < hs[at] && n < hs[p] && q < |hs| && n < hs[q]
    requires NextIndex(hs[at := 0], p + 1, n) > at
    ensures q == p ==> NextIndex(hs, q + 1, n) == at
    ensures q == at ==> NextIndex(hs, q + 1, n) == NextIndex(hs[at := 0], p + 1, n)
    ensures q != p && q != at ==> NextIndex(hs, q + 1, n) == NextIndex(hs[at := 0], q + 1, n)
  {
    var hs' := hs[at := 0];
    assert forall r | 0 <= r < |hs| && r != at :: hs[r] == hs'[r];
    NextIndexIs(hs', p + 1, n);
    NextIndexIs(hs', q + 1, n);
    NextIndexIs(hs, q + 1, n);
    hide NextIndex;
    var far, near := NextIndex(hs', p + 1, n), NextIndex(hs', q + 1, n);
    assert q <= p || q >= at;
    if q == p {
      assert NextIs(hs, q + 1, n, at);
      NextUnique(hs, q + 1, n, at);
    } else if q == at {
      assert NextIs(hs, q + 1, n, far);
      NextUnique(hs, q + 1, n, far);
    } else {
      assert q < p ==> hs'[p] > n && near <= p;
      assert NextIs(hs, q + 1, n, near);
      NextUnique(hs, q + 1, n, near);
    }
  }

  /** Once every level of the new position is spliced, the list is linked. */
  lemma AfterSplice<N>(links: seq<seq<N>>, nodes: seq<N>, end: N, hs: seq<nat>, at: nat)
    requires at < |hs| && PartLinked(links, nodes, end, hs, at, hs[at])
    ensures Linked(links, nodes, end, hs)
  {
    hide NextIndex;
    forall p, i | 0 <= p < |links| && 0 <= i < hs[p] ensures links[p][i] == At(nodes, end, NextIndex(hs, p + 1, i)) {
      if i >= hs[at] {
        NextIndexIs(hs[at := 0], p + 1, i);
        var q := NextIndex(hs[at := 0], p + 1, i);
        assert forall r | 0 <= r < |hs| && r != at :: hs[r] == hs[at := 0][r];
        assert NextIs(hs, p + 1, i, q);
        NextUnique(hs, p + 1, i, q);
      }
    }
  }
}
