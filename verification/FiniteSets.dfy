// Counting: sequences without repetition, and the sets of their members.
module FiniteSets {
  predicate Distinct<T(==)>(q: seq<T>) {
    forall i, j :: 0 <= i < j < |q| ==> q[i] != q[j]
  }

  function Members<T(!new)>(q: seq<T>): (s: set<T>)
    ensures forall x :: x in s <==> x in q
  {
    set x | x in q
  }

  lemma SubsetSize<T>(a: set<T>, b: set<T>)
    requires a <= b
    ensures |a| <= |b|
    ensures |a| == |b| ==> a == b
  {
    assert b == a + (b - a);
  }

  lemma {:induction false} DistinctCount<T(!new)>(q: seq<T>)
    requires Distinct(q)
    ensures |Members(q)| == |q|
  {
    if q != [] {
      var before, last := q[..|q| - 1], q[|q| - 1];
      DistinctCount(before);
      assert q == before + [last] && last !in before;
      assert Members(q) == Members(before) + {last};
    }
  }

  lemma {:induction false} MembersBound<T(!new)>(q: seq<T>)
    ensures |Members(q)| <= |q|
  {
    if q != [] {
      MembersBound(q[1..]);
      assert q == [q[0]] + q[1..];
      assert Members(q) == {q[0]} + Members(q[1..]);
    }
  }
}
