/**
  Names of plan nodes and scaling groups, and ids of their instances.

  The text of an instance id (the node name and six random characters) carries no meaning:
  ids only have to be distinct and ordered, so they are drawn from the natural numbers.
*/
module Names {
  type Name = string
  type Id = nat

  datatype Option<+T> = None | Some(value: T)

  function NonNegative(n: int): (r: nat) {
    if n < 0 then 0 else n
  }

  function Max(a: int, b: int): (r: int)
    ensures r >= a && r >= b && (r == a || r == b)
  {
    if a < b then b else a
  }

  ghost predicate Distinct<T>(s: seq<T>) {
    forall i, j :: 0 <= i < j < |s| ==> s[i] != s[j]
  }

  ghost function Elements<T>(s: seq<T>): set<T> {
    set x | x in s
  }

  lemma {:induction false} DistinctCardinality<T>(s: seq<T>)
    requires Distinct(s)
    ensures |Elements(s)| == |s|
  {
    if s == [] {
      assert Elements(s) == {};
    } else {
      var rest := s[1..];
      DistinctCardinality(rest);
      assert s[0] !in rest;
      assert Elements(s) == {s[0]} + Elements(rest);
    }
  }

  /** The elements of a set in some order. */
  method Listed<T(==)>(s: set<T>) returns (r: seq<T>)
    ensures Distinct(r) && Elements(r) == s
  {
    r := [];
    var todo := s;
    while todo != {}
      invariant Distinct(r) && Elements(r) == s - todo && todo <= s
      decreases todo
    {
      var x :| x in todo;
      assert x !in Elements(r);
      assert Elements(r + [x]) == Elements(r) + {x};
      r, todo := r + [x], todo - {x};
    }
  }
}
