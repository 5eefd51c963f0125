/** Small value types shared by the models. */
module Common {

  datatype Option<+T> = None | Some(value: T)

  datatype Result<+T, +E> = Ok(value: T) | Err(error: E)

  function Max(a: int, b: int): int {
    if a >= b then a else b
  }

  function Min(a: int, b: int): int {
    if a <= b then a else b
  }

  /** The elements of `s` that pass `keep`, in order (a Python list comprehension with `if`). */
  function Filter<T(!new)>(s: seq<T>, keep: T -> bool): (r: seq<T>)
    ensures forall x :: x in r <==> x in s && keep(x)
    ensures (forall x :: x in s ==> keep(x)) ==> r == s
  {
    if s == [] then []
    else if keep(s[0]) then [s[0]] + Filter(s[1..], keep)
    else Filter(s[1..], keep)
  }

  /** What passes stays in order: the elements at two positions of the result stand in that order in `s`. */
  lemma {:induction false} FilterInOrder<T(!new)>(s: seq<T>, keep: T -> bool, i: nat, j: nat) returns (p: nat, q: nat)
    requires i < j < |Filter(s, keep)|
    ensures p < q < |s| && s[p] == Filter(s, keep)[i] && s[q] == Filter(s, keep)[j]
  {
    var rest := Filter(s[1..], keep);
    if !keep(s[0]) {
      var p', q' := FilterInOrder(s[1..], keep, i, j);
      p, q := p' + 1, q' + 1;
    } else if i > 0 {
      var p', q' := FilterInOrder(s[1..], keep, i - 1, j - 1);
      p, q := p' + 1, q' + 1;
    } else {
      assert rest[j - 1] in rest;
      var q' :| 0 <= q' < |s[1..]| && s[1..][q'] == rest[j - 1];
      p, q := 0, q' + 1;
    }
  }

  lemma FilterDistinct<T(!new)>(s: seq<T>, keep: T -> bool)
    requires Distinct(s)
    ensures Distinct(Filter(s, keep))
  {
    forall i, j | 0 <= i < j < |Filter(s, keep)| ensures Filter(s, keep)[i] != Filter(s, keep)[j] {
      var p, q := FilterInOrder(s, keep, i, j);
    }
  }

  ghost predicate Distinct<T>(s: seq<T>) {
    forall i, j :: 0 <= i < j < |s| ==> s[i] != s[j]
  }

  ghost function Elements<T>(s: seq<T>): set<T> {
    set x | x in s
  }

  /** A sequence without repetitions has as many elements as its set. */
  lemma {:induction false} DistinctCardinality<T>(s: seq<T>)
    ensures |Elements(s)| <= |s|
    ensures Distinct(s) <==> |Elements(s)| == |s|
  {
    if s != [] {
      var rest, last := s[..|s| - 1], s[|s| - 1];
      DistinctCardinality(rest);
      assert s == rest + [last];
      assert Elements(s) == Elements(rest) + {last};
      if last in rest {
        assert Elements(s) == Elements(rest);
        var i :| 0 <= i < |rest| && rest[i] == last;
        assert s[i] == s[|s| - 1];
      } else {
        assert |Elements(s)| == |Elements(rest)| + 1;
        if Distinct(rest) {
          assert Distinct(s);
        } else {
          var i, j :| 0 <= i < j < |rest| && rest[i] == rest[j];
          assert s[i] == s[j];
        }
      }
    }
  }

  /** A distinct sequence drawn from a set is no longer than the set. */
  lemma DistinctBounded<T>(s: seq<T>, u: set<T>)
    requires Distinct(s) && Elements(s) <= u
    ensures |s| <= |u|
    ensures |s| == |u| ==> Elements(s) == u
  {
    DistinctCardinality(s);
    SubsetCardinality(Elements(s), u);
  }

  lemma SubsetCardinality<T>(a: set<T>, b: set<T>)
    requires a <= b
    ensures |a| <= |b|
    ensures |a| == |b| ==> a == b
  {
    assert b == a + (b - a);
    assert |b| == |a| + |b - a|;
  }
}
