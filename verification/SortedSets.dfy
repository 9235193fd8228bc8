// A finite set laid out in increasing order: the specification of the sort
// that both caches apply to a directory listing.
module SortedSets {
  ghost predicate TotalOn<T(!new)>(s: set<T>, leq: (T, T) -> bool) {
    && (forall x, y :: x in s && y in s ==> leq(x, y) || leq(y, x))
    && (forall x, y :: x in s && y in s && leq(x, y) && leq(y, x) ==> x == y)
    && (forall x, y, z :: x in s && y in s && z in s && leq(x, y) && leq(y, z) ==> leq(x, z))
  }

  predicate IsLeast<T(!new, ==)>(x: T, s: set<T>, leq: (T, T) -> bool) {
    x in s && forall y :: y in s ==> leq(x, y)
  }

  lemma {:induction false} LeastExists<T(!new)>(s: set<T>, leq: (T, T) -> bool)
    requires TotalOn(s, leq) && s != {}
    ensures exists x :: IsLeast(x, s, leq)
    decreases |s|
  {
    var a :| a in s;
    var rest := s - {a};
    if rest == {} {
      assert s == {a};
      assert IsLeast(a, s, leq);
    } else {
      LeastExists(rest, leq);
      var b :| IsLeast(b, rest, leq);
      var m := if leq(a, b) then a else b;
      forall y | y in s
        ensures leq(m, y)
      {
        if y != a {
          assert y in rest;
        }
      }
      assert IsLeast(m, s, leq);
    }
  }

  function Least<T(!new, ==)>(s: set<T>, leq: (T, T) -> bool): (x: T)
    requires TotalOn(s, leq) && s != {}
    ensures IsLeast(x, s, leq)
  {
    LeastExists(s, leq);
    var x :| IsLeast(x, s, leq);
    x
  }

  /** `q` lists `s` once each, in order. */
  ghost predicate Lists<T(!new)>(q: seq<T>, s: set<T>, leq: (T, T) -> bool) {
    && (forall x :: x in q <==> x in s)
    && (forall i, j :: 0 <= i < j < |q| ==> leq(q[i], q[j]) && q[i] != q[j])
  }

  function InOrder<T(!new, ==)>(s: set<T>, leq: (T, T) -> bool): (q: seq<T>)
    requires TotalOn(s, leq)
    ensures Lists(q, s, leq) && |q| == |s|
    decreases |s|
  {
    if s == {} then [] else
    var m := Least(s, leq);
    assert TotalOn(s - {m}, leq);
    var rest := InOrder(s - {m}, leq);
    assert forall i :: 0 <= i < |rest| ==> rest[i] in s - {m};
    [m] + rest
  }

  lemma FirstIsLeast<T(!new)>(q: seq<T>, s: set<T>, leq: (T, T) -> bool)
    requires TotalOn(s, leq) && Lists(q, s, leq) && q != []
    ensures s != {} && q[0] == Least(s, leq)
  {
    assert q[0] in s;
    var m := Least(s, leq);
    assert m in q;
    var k :| 0 <= k < |q| && q[k] == m;
  }

  lemma RestLists<T(!new)>(q: seq<T>, s: set<T>, leq: (T, T) -> bool)
    requires Lists(q, s, leq) && q != []
    ensures q[0] in s && Lists(q[1..], s - {q[0]}, leq)
  {
    var rest := q[1..];
    assert q == [q[0]] + rest;
    forall x
      ensures x in rest <==> x in s - {q[0]}
    {
      assert x in q <==> x == q[0] || x in rest;
      if x in rest {
        var i :| 0 <= i < |rest| && rest[i] == x;
        assert q[i + 1] == x;
      }
    }
  }

  lemma InOrderBeginsWithLeast<T(!new)>(s: set<T>, leq: (T, T) -> bool)
    requires TotalOn(s, leq) && s != {}
    ensures TotalOn(s - {Least(s, leq)}, leq) && Least(s, leq) in s
    ensures InOrder(s, leq) == [Least(s, leq)] + InOrder(s - {Least(s, leq)}, leq)
  {
    hide Lists;
  }

  /** There is only one way to list a set in order. */
  lemma {:induction false} ListingIsUnique<T(!new)>(q: seq<T>, s: set<T>, leq: (T, T) -> bool)
    requires TotalOn(s, leq)
    requires Lists(q, s, leq)
    ensures q == InOrder(s, leq)
    decreases |s|
  {
    if q == [] {
      assert forall x :: x in s ==> x in q;
      assert s == {};
    } else {
      FirstIsLeast(q, s, leq);
      RestLists(q, s, leq);
      hide Lists, TotalOn, InOrder, Least, IsLeast;
      InOrderBeginsWithLeast(s, leq);
      ListingIsUnique(q[1..], s - {q[0]}, leq);
      assert q == [q[0]] + q[1..];
    }
  }
}
