/**
 The ordering Python uses on lists and tuples of integers: lexicographic, with a proper
 prefix ordered before its extensions. Every search in this model reports boards in this
 order, and the genetic canonical form takes a minimum under it.
 */
module Lex {

  /** Python's `a < b` on two integer lists. */
  predicate Less(a: seq<int>, b: seq<int>)
    decreases |a|
  {
    if |a| == 0 then |b| > 0
    else if |b| == 0 then false
    else a[0] < b[0] || (a[0] == b[0] && Less(a[1..], b[1..]))
  }

  lemma {:induction false} Irreflexive(a: seq<int>)
    ensures !Less(a, a)
    decreases |a|
  {
    if |a| > 0 {
      Irreflexive(a[1..]);
    }
  }

  lemma {:induction false} Asymmetric(a: seq<int>, b: seq<int>)
    ensures Less(a, b) ==> !Less(b, a)
    decreases |a|
  {
    if |a| > 0 && |b| > 0 {
      Asymmetric(a[1..], b[1..]);
    }
  }

  lemma {:induction false} Transitive(a: seq<int>, b: seq<int>, c: seq<int>)
    requires Less(a, b) && Less(b, c)
    ensures Less(a, c)
    decreases |a|
  {
    if |a| > 0 && a[0] == b[0] && b[0] == c[0] {
      Transitive(a[1..], b[1..], c[1..]);
    }
  }

  lemma {:induction false} Total(a: seq<int>, b: seq<int>)
    ensures a == b || Less(a, b) || Less(b, a)
    decreases |a|
  {
    if |a| > 0 && |b| > 0 && a[0] == b[0] {
      Total(a[1..], b[1..]);
      if a[1..] == b[1..] {
        assert a == [a[0]] + a[1..] && b == [b[0]] + b[1..];
      }
    }
  }

  /** Two lists that agree before position k and differ upward at k are ordered. */
  lemma {:induction false} LessAt(a: seq<int>, b: seq<int>, k: nat)
    requires k < |a| && k < |b|
    requires a[..k] == b[..k] && a[k] < b[k]
    ensures Less(a, b)
    decreases k
  {
    if k > 0 {
      assert a[0] == a[..k][0] == b[..k][0] == b[0];
      assert a[1..][..k - 1] == a[1..k] == a[..k][1..];
      assert b[1..][..k - 1] == b[1..k] == b[..k][1..];
      LessAt(a[1..], b[1..], k - 1);
    }
  }

  /** Putting the same head in front of two lists keeps their order. */
  lemma ConsLess(x: int, a: seq<int>, b: seq<int>)
    ensures Less([x] + a, [x] + b) <==> Less(a, b)
  {
    assert ([x] + a)[1..] == a && ([x] + b)[1..] == b;
  }

  /** A strictly increasing sequence of boards: no repeats, ascending order. */
  predicate Sorted(xs: seq<seq<int>>)
  {
    forall i, j :: 0 <= i < j < |xs| ==> Less(xs[i], xs[j])
  }

  /** A strictly decreasing sequence of boards. */
  predicate SortedDesc(xs: seq<seq<int>>)
  {
    forall i, j :: 0 <= i < j < |xs| ==> Less(xs[j], xs[i])
  }

  function Reverse<T>(xs: seq<T>): (r: seq<T>)
    ensures |r| == |xs|
    decreases |xs|
  {
    if |xs| == 0 then [] else Reverse(xs[1..]) + [xs[0]]
  }

  /** Position i of the reversal holds position |xs| - 1 - i of the original. */
  lemma {:induction false} ReverseIndex<T>(xs: seq<T>)
    ensures forall i :: 0 <= i < |xs| ==> Reverse(xs)[i] == xs[|xs| - 1 - i]
    decreases |xs|
  {
    if |xs| > 0 {
      ReverseIndex(xs[1..]);
      var r := Reverse(xs);
      forall i | 0 <= i < |xs|
        ensures r[i] == xs[|xs| - 1 - i]
      {
        if i < |xs| - 1 {
          assert r[i] == Reverse(xs[1..])[i];
        }
      }
    }
  }

  lemma ReverseSorted(xs: seq<seq<int>>)
    requires Sorted(xs)
    ensures SortedDesc(Reverse(xs))
  {
    var r := Reverse(xs);
    ReverseIndex(xs);
    forall i, j | 0 <= i < j < |r|
      ensures Less(r[j], r[i])
    {
      assert r[j] == xs[|xs| - 1 - j] && r[i] == xs[|xs| - 1 - i];
    }
  }

  lemma ReverseMembers<T>(xs: seq<T>)
    ensures forall x :: x in Reverse(xs) <==> x in xs
  {
    var r := Reverse(xs);
    ReverseIndex(xs);
    forall x | x in xs
      ensures x in r
    {
      var i :| 0 <= i < |xs| && xs[i] == x;
      assert r[|xs| - 1 - i] == x;
    }
    forall x | x in r
      ensures x in xs
    {
      var i :| 0 <= i < |r| && r[i] == x;
      assert xs[|xs| - 1 - i] == x;
    }
  }

  lemma AppendAssoc<T>(a: seq<T>, b: seq<T>, c: seq<T>)
    ensures (a + b) + c == a + (b + c)
  {
  }

  lemma AppendNil<T>(a: seq<T>)
    ensures a + [] == a && [] + a == a
  {
  }

  lemma {:induction false} ReverseAppend<T>(a: seq<T>, b: seq<T>)
    ensures Reverse(a + b) == Reverse(b) + Reverse(a)
    decreases |a|
  {
    if |a| == 0 {
      assert a + b == b;
      assert Reverse(b) + [] == Reverse(b);
    } else {
      assert (a + b)[1..] == a[1..] + b;
      ReverseAppend(a[1..], b);
    }
  }

  /** Joining two ascending runs, every element of the first below every element of the second. */
  lemma SortedAppend(a: seq<seq<int>>, b: seq<seq<int>>)
    requires Sorted(a) && Sorted(b)
    requires forall x, y :: x in a && y in b ==> Less(x, y)
    ensures Sorted(a + b)
  {
    var c := a + b;
    forall i, j | 0 <= i < j < |c|
      ensures Less(c[i], c[j])
    {
      if j < |a| {
        assert c[i] == a[i] && c[j] == a[j];
      } else if i >= |a| {
        assert c[i] == b[i - |a|] && c[j] == b[j - |a|];
      } else {
        assert c[i] in a && c[j] in b;
      }
    }
  }

  lemma NoMembersEmpty<T>(xs: seq<T>)
    ensures (forall x :: x !in xs) ==> xs == []
  {
    if |xs| > 0 {
      assert xs[0] in xs;
    }
  }

  /** A sorted sequence is determined by its members. */
  lemma {:induction false} SortedUnique(xs: seq<seq<int>>, ys: seq<seq<int>>)
    requires Sorted(xs) && Sorted(ys)
    requires forall x :: x in xs <==> x in ys
    ensures xs == ys
    decreases |xs|
  {
    if |xs| == 0 {
      assert forall y :: y !in ys;
      NoMembersEmpty(ys);
    } else {
      assert xs[0] in ys;
      assert |ys| > 0;
      assert ys[0] in xs;
      if xs[0] != ys[0] {
        var i :| 0 <= i < |ys| && ys[i] == xs[0];
        var j :| 0 <= j < |xs| && xs[j] == ys[0];
        assert i > 0 && j > 0;
        assert Less(ys[0], xs[0]);
        assert Less(xs[0], ys[0]);
        Asymmetric(xs[0], ys[0]);
        assert false;
      }
      forall x | x in xs[1..]
        ensures x in ys[1..]
      {
        var i :| 1 <= i < |xs| && xs[i] == x;
        assert Less(xs[0], x);
        Irreflexive(x);
        assert x in ys && x != ys[0];
        var k :| 0 <= k < |ys| && ys[k] == x;
        assert ys[1..][k - 1] == x;
      }
      forall y | y in ys[1..]
        ensures y in xs[1..]
      {
        var i :| 1 <= i < |ys| && ys[i] == y;
        assert Less(ys[0], y);
        Irreflexive(y);
        assert y in xs && y != xs[0];
        var k :| 0 <= k < |xs| && xs[k] == y;
        assert xs[1..][k - 1] == y;
      }
      SortedUnique(xs[1..], ys[1..]);
      assert xs == [xs[0]] + xs[1..] && ys == [ys[0]] + ys[1..];
    }
  }

  /** A sorted sequence repeats no board. */
  lemma SortedDistinct(xs: seq<seq<int>>)
    requires Sorted(xs)
    ensures forall i, j :: 0 <= i < j < |xs| ==> xs[i] != xs[j]
  {
    forall i, j | 0 <= i < j < |xs|
      ensures xs[i] != xs[j]
    {
      Irreflexive(xs[i]);
    }
  }
}
