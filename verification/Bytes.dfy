/** Byte strings and the order `std::string` compares them in. */
module Bytes {

  type Byte = x: int | 0 <= x < 256

  type ByteString = seq<Byte>

  datatype Option<+T> = None | Some(value: T)

  /** Unsigned lexicographic order: a proper prefix sorts first. */
  predicate Less(a: ByteString, b: ByteString) {
    b != [] && (a == [] || a[0] < b[0] || (a[0] == b[0] && Less(a[1..], b[1..])))
  }

  predicate Leq(a: ByteString, b: ByteString) {
    a == b || Less(a, b)
  }

  lemma LessIrreflexive(a: ByteString)
    ensures !Less(a, a)
  {
    if a != [] {
      LessIrreflexive(a[1..]);
    }
  }

  lemma LessTransitive(a: ByteString, b: ByteString, c: ByteString)
    requires Less(a, b) && Less(b, c)
    ensures Less(a, c)
  {
    if a != [] && a[0] == b[0] == c[0] {
      LessTransitive(a[1..], b[1..], c[1..]);
    }
  }

  lemma {:induction false} LessTotal(a: ByteString, b: ByteString)
    ensures Less(a, b) || a == b || Less(b, a)
  {
    if a == [] || b == [] || a[0] != b[0] {
    } else {
      LessTotal(a[1..], b[1..]);
      assert a == [a[0]] + a[1..] && b == [b[0]] + b[1..];
    }
  }

  /** The order laws at once, for proofs that shuffle many keys. */
  lemma OrderLaws()
    ensures forall a: ByteString :: !Less(a, a)
    ensures forall a: ByteString, b: ByteString :: Less(a, b) || a == b || Less(b, a)
    ensures forall a: ByteString, b: ByteString, c: ByteString :: Less(a, b) && Less(b, c) ==> Less(a, c)
  {
    forall a: ByteString ensures !Less(a, a) { LessIrreflexive(a); }
    forall a: ByteString, b: ByteString ensures Less(a, b) || a == b || Less(b, a) { LessTotal(a, b); }
    forall a: ByteString, b: ByteString, c: ByteString | Less(a, b) && Less(b, c) ensures Less(a, c) {
      LessTransitive(a, b, c);
    }
  }

  /** The first place where two strings part decides: one of them ends there, or has the smaller byte. */
  ghost predicate PartsAt(a: ByteString, b: ByteString, i: nat) {
    i <= |a| && i < |b| && a[..i] == b[..i] && (i == |a| || a[i] < b[i])
  }

  lemma {:induction false} LessMeans(a: ByteString, b: ByteString)
    ensures Less(a, b) <==> exists i: nat :: PartsAt(a, b, i)
  {
    if a == [] || b == [] || a[0] != b[0] {
      assert b != [] && (a == [] || a[0] < b[0]) ==> PartsAt(a, b, 0);
      assert forall i: nat | 0 < i && PartsAt(a, b, i) :: a[..i][0] == b[..i][0];
    } else {
      LessMeans(a[1..], b[1..]);
      if i: nat :| PartsAt(a[1..], b[1..], i) {
        assert a[..i + 1] == [a[0]] + a[1..][..i] && b[..i + 1] == [b[0]] + b[1..][..i];
        assert PartsAt(a, b, i + 1);
      }
      if i: nat :| PartsAt(a, b, i) {
        assert i > 0 && a[1..][..i - 1] == a[..i][1..] && b[1..][..i - 1] == b[..i][1..];
        assert PartsAt(a[1..], b[1..], i - 1);
      }
    }
  }

  // ---- Prefixes ------------------------------------------------------------------------------------

  predicate HasPrefix(k: ByteString, p: ByteString) {
    |p| <= |k| && k[..|p|] == p
  }

  /** The least string above every string with prefix p, if there is one. */
  function PrefixSuccessor(p: ByteString): (u: Option<ByteString>) {
    if p == [] then None
    else if p[|p|-1] < 255 then Some(p[..|p|-1] + [p[|p|-1] + 1])
    else PrefixSuccessor(p[..|p|-1])
  }

  /** prefix_successor's loop from the last byte. */
  method FindPrefixSuccessor(p: ByteString) returns (u: Option<ByteString>)
    ensures u == PrefixSuccessor(p)
  {
    var i := |p|;
    assert p[..i] == p;
    while i > 0
      invariant 0 <= i <= |p| && PrefixSuccessor(p[..i]) == PrefixSuccessor(p)
    {
      assert p[..i][..i - 1] == p[..i - 1];
      if p[i - 1] != 255 {
        return Some(p[..i - 1] + [p[i - 1] + 1]);
      }
      i := i - 1;
    }
    return None;
  }

  lemma {:induction false} LessUnderPrefix(c: ByteString, a: ByteString, b: ByteString)
    ensures Less(c + a, c + b) <==> Less(a, b)
  {
    if c == [] {
      assert c + a == a && c + b == b;
    } else {
      assert (c + a)[1..] == c[1..] + a && (c + b)[1..] == c[1..] + b;
      LessUnderPrefix(c[1..], a, b);
    }
  }

  lemma PrefixIsLeq(k: ByteString, p: ByteString)
    requires HasPrefix(k, p)
    ensures Leq(p, k)
  {
    assert k == p + k[|p|..] && p == p + [];
    LessUnderPrefix(p, [], k[|p|..]);
  }

  lemma {:induction false} OneByteBlock(q: ByteString, b: Byte, k: ByteString)
    requires b < 255
    ensures HasPrefix(k, q + [b]) <==> Leq(q + [b], k) && Less(k, q + [b + 1])
  {
    if q == [] {
      assert q + [b] == [b] && q + [b + 1] == [b + 1];
      if k != [] {
        assert HasPrefix(k, [b]) <==> k[0] == b;
        assert k[0] == b ==> Leq([b], k) by {
          assert [b][1..] == [];
          if k[0] == b && |k| == 1 { assert k == [b]; }
        }
      }
    } else if k != [] && k[0] == q[0] {
      assert (q + [b])[1..] == q[1..] + [b] && (q + [b + 1])[1..] == q[1..] + [b + 1];
      OneByteBlock(q[1..], b, k[1..]);
      assert k == [k[0]] + k[1..] && q + [b] == [q[0]] + (q[1..] + [b]);
      assert HasPrefix(k, q + [b]) <==> HasPrefix(k[1..], q[1..] + [b]) by {
        if HasPrefix(k, q + [b]) {
          assert k[1..][..|q|] == (q + [b])[1..];
        }
        if HasPrefix(k[1..], q[1..] + [b]) {
          assert k[..|q| + 1] == [k[0]] + k[1..][..|q|];
        }
      }
    }
  }

  lemma TopByte(q: ByteString, k: ByteString)
    ensures HasPrefix(k, q + [255]) <==> HasPrefix(k, q) && Leq(q + [255], k)
  {
    if HasPrefix(k, q + [255]) {
      PrefixIsLeq(k, q + [255]);
      assert k[..|q|] == (q + [255])[..|q|];
    }
    if HasPrefix(k, q) && Leq(q + [255], k) {
      var t := k[|q|..];
      assert k == q + t;
      LessUnderPrefix(q, [255], t);
      if q + [255] != k {
        assert t[0] == 255;
        assert k[|q|] == 255;
        assert k[..|q| + 1] == q + [255];
      }
    }
  }

  /** The strings with prefix p are exactly those from p up to its successor. */
  lemma {:induction false} PrefixRange(p: ByteString, k: ByteString)
    ensures HasPrefix(k, p) <==> Leq(p, k) && (PrefixSuccessor(p).None? || Less(k, PrefixSuccessor(p).value))
    decreases |p|
  {
    if p == [] {
      LessTotal([], k);
    } else {
      var q, b := p[..|p|-1], p[|p|-1];
      assert p == q + [b];
      if b < 255 {
        OneByteBlock(q, b, k);
      } else {
        PrefixRange(q, k);
        TopByte(q, k);
        PrefixIsLeq(p, q);
        OrderLaws();
      }
    }
  }

  /** Nothing lies strictly between s and s followed by a zero byte. */
  lemma {:induction false} NextString(s: ByteString, k: ByteString)
    ensures Less(s, k) <==> Leq(s + [0], k)
  {
    if s == [] {
      assert s + [0] == [0];
      var zero: ByteString := [0];
      assert zero[1..] == [];
      if k != [] && k[0] == 0 {
        assert k == [0] + k[1..];
        assert Less(zero, k) <==> Less([], k[1..]);
      }
    } else if k != [] && k[0] == s[0] {
      assert (s + [0])[1..] == s[1..] + [0];
      NextString(s[1..], k[1..]);
      assert k == [k[0]] + k[1..] && s + [0] == [s[0]] + (s[1..] + [0]);
    }
  }

  /** One element, moved from the front of what follows to the end of what came before. */
  lemma MoveOne<T>(a: seq<T>, x: T, b: seq<T>)
    ensures a + ([x] + b) == (a + [x]) + b
  {
  }
}
