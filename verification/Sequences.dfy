/** Sequences used as duplicate-free lists. */
module Sequences {
  /** No element occurs twice; read from the last element down. */
  ghost predicate Distinct(s: seq<int>) {
    s == [] || (s[|s| - 1] !in s[..|s| - 1] && Distinct(s[..|s| - 1]))
  }

  lemma DistinctSnoc(s: seq<int>, x: int)
    requires Distinct(s) && x !in s
    ensures Distinct(s + [x])
  {
    assert (s + [x])[..|s|] == s;
  }

  lemma {:induction false} DistinctTail(s: seq<int>)
    requires Distinct(s) && s != []
    ensures Distinct(s[1..]) && s[0] !in s[1..]
  {
    if |s| > 1 {
      var r := s[..|s| - 1];
      DistinctTail(r);
      assert s[1..] == r[1..] + [s[|s| - 1]];
      DistinctSnoc(r[1..], s[|s| - 1]);
    }
  }

  lemma HeadAndTail(s: seq<int>)
    requires s != []
    ensures forall x :: x in s <==> x == s[0] || x in s[1..]
  {
    assert s == [s[0]] + s[1..];
  }

  lemma {:induction false} DistinctCons(x: int, s: seq<int>)
    requires Distinct(s) && x !in s
    ensures Distinct([x] + s)
  {
    if s != [] {
      DistinctCons(x, s[..|s| - 1]);
      assert [x] + s == ([x] + s[..|s| - 1]) + [s[|s| - 1]];
      DistinctSnoc([x] + s[..|s| - 1], s[|s| - 1]);
    }
  }

  /** `s` without `x`, the others in their order. */
  function Without(s: seq<int>, x: int): (r: seq<int>)
    ensures forall y :: y in r <==> y in s && y != x
    ensures x !in s ==> r == s
  {
    if s == [] then []
    else
      var r := Without(s[..|s| - 1], x);
      if s[|s| - 1] == x then r else r + [s[|s| - 1]]
  }

  lemma {:induction false} DistinctWithout(s: seq<int>, x: int)
    requires Distinct(s)
    ensures Distinct(Without(s, x))
  {
    if s != [] {
      DistinctWithout(s[..|s| - 1], x);
      if s[|s| - 1] != x {
        DistinctSnoc(Without(s[..|s| - 1], x), s[|s| - 1]);
      }
    }
  }
}
