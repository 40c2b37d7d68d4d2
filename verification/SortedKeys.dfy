/**
 The ascending enumeration of a finite set of keys: how std::map with StringViewLess walks its entries.
 */
module SortedKeys {
  import opened Bytes

  ghost predicate Ascending(ks: seq<ByteString>) {
    forall i, j | 0 <= i < j < |ks| :: Less(ks[i], ks[j])
  }

  function MinKey(s: set<ByteString>): (m: ByteString)
    requires s != {}
    ensures m in s && forall x | x in s :: Leq(m, x)
  {
    MinExists(s);
    OrderLaws();
    var m :| m in s && forall x | x in s :: Leq(m, x);
    m
  }

  lemma {:induction false} MinExists(s: set<ByteString>)
    requires s != {}
    ensures exists m :: m in s && forall x | x in s :: Leq(m, x)
    decreases |s|
  {
    OrderLaws();
    var y :| y in s;
    var t := s - {y};
    if t == {} {
      assert forall x | x in s :: x in t || x == y;
    } else {
      MinExists(t);
      var m :| m in t && forall x | x in t :: Leq(m, x);
      var low := if Less(y, m) then y else m;
      forall x | x in s ensures Leq(low, x) {
        assert x in t || x == y;
      }
    }
  }

  function Sorted(s: set<ByteString>): (r: seq<ByteString>)
    decreases |s|
  {
    if s == {} then [] else var m := MinKey(s); [m] + Sorted(s - {m})
  }

  lemma {:induction false} SortedEnumerates(s: set<ByteString>)
    ensures Ascending(Sorted(s))
    ensures forall k :: k in Sorted(s) <==> k in s
    decreases |s|
  {
    if s != {} {
      OrderLaws();
      var m := MinKey(s);
      SortedEnumerates(s - {m});
      var tail := Sorted(s - {m});
      forall i | 0 <= i < |tail| ensures Less(m, tail[i]) {
        assert tail[i] in tail;
      }
    }
  }

}
